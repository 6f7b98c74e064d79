/** How long high-priority traffic can keep a low-priority frame waiting. */
module ActorBypass {
  import opened Base
  import opened ActorModel
  import opened ActorSystem
  import I = ActorInvariant
  import T = ActorTheorems
  import F = Fairness

  /** Actor steps take the branch the biased select chooses. */
  predicate Biased(s: System, steps: seq<Step>, h: Hooks)
    requires T.Legal(s, steps, h)
    decreases steps
  {
    steps != [] ==>
      && (steps[0].Act? ==> Choose(s.actor) == Some(steps[0].branch))
      && Biased(After(s, steps[0], h), steps[1..], h)
  }

  /** A step that emits a high-priority frame. */
  predicate HighStep(s: System, step: Step) {
    step.Act? && step.branch.OnHigh? && s.actor.high.Some? && s.actor.high.value.items != []
  }

  function HighSteps(s: System, steps: seq<Step>, h: Hooks): nat
    requires T.Legal(s, steps, h)
    decreases steps
  {
    if steps == [] then 0 else Gone(HighStep(s, steps[0])) + HighSteps(After(s, steps[0], h), steps[1..], h)
  }

  function Threshold(a: Actor): nat { a.fairness.config.maxHighBeforeLow }

  function Max(x: int, y: int): int { if x < y then y else x }

  /** High-priority frames that can still go before the low frame with `p` others ahead of it. */
  function Patience(a: Actor, p: nat): int {
    if a.high.None? then 1
    else Threshold(a) * p + Max(1, Threshold(a) - a.fairness.highCounter)
  }

  /** The low queue holds more than `p` frames. */
  predicate Waits(a: Actor, p: nat) { a.low.Some? && |a.low.value.items| > p }

  /** Low frames emitted between two states. */
  function LowEmitted(a: Actor, b: Actor): int { |From(b.log, Low)| - |From(a.log, Low)| }

  lemma SendLowCounts(a: Actor, h: Hooks)
    requires a.low.Some? && a.low.value.items != []
    ensures LowEmitted(a, SendLow(a, h)) == 1
  {
    I.FromAppendAll(a.log, SendLow(a, h).log[|a.log|], SendLow(a, h).log);
  }

  /** A high frame either brings the yield one frame closer or lets a low frame out. */
  lemma HighCounts(a: Actor, h: Hooks, t: Clock, p: nat)
    requires Threshold(a) > 0 && Waits(a, p) && a.high.Some? && a.high.value.items != []
    ensures var b := AfterHigh(SendHigh(a, h), h, t);
            && Threshold(b) == Threshold(a) && b.high.Some?
            && if LowEmitted(a, b) == 0 then Waits(b, p) && 1 + Patience(b, p) <= Patience(a, p)
               else LowEmitted(a, b) == 1
                    && (p > 0 ==> Waits(b, p - 1) && 1 + Patience(b, p - 1) <= Patience(a, p))
  {
    var sent := SendHigh(a, h);
    I.FromAppendAll(a.log, sent.log[|a.log|], sent.log);
    var counted := sent.(fairness := F.Record(sent.fairness, t.record));
    if F.ShouldYield(counted.fairness, t.check) {
      SendLowCounts(counted, h);
      assert Threshold(a) * (p - 1) == Threshold(a) * p - Threshold(a);
    }
  }

  lemma LowCounts(a: Actor, h: Hooks, p: nat)
    requires Threshold(a) > 0 && Waits(a, p)
    ensures var b := SendLow(a, h);
            && Threshold(b) == Threshold(a) && LowEmitted(a, b) == 1
            && (p > 0 ==> Waits(b, p - 1) && Patience(b, p - 1) <= Patience(a, p))
  {
    SendLowCounts(a, h);
    assert Threshold(a) * (p - 1) == Threshold(a) * p - Threshold(a);
  }

  /** One step of a biased run while a low frame waits with `p` others ahead of it. */
  predicate Advances(s: System, step: Step, e: System, p: nat) {
    Moves(s.actor, e.actor, Gone(HighStep(s, step)), p)
  }

  /** A low frame may have gone out, and the `high` frames that have are off the patience left. */
  predicate Moves(a: Actor, b: Actor, high: nat, p: nat) {
    var d := LowEmitted(a, b);
    && Threshold(b) == Threshold(a)
    && 0 <= d <= 1
    && (d <= p ==> Waits(b, p - d) && high + Patience(b, p - d) <= Patience(a, p))
  }

  lemma HighMoves(a: Actor, h: Hooks, t: Clock, p: nat)
    requires Threshold(a) > 0 && Waits(a, p) && a.high.Some? && a.high.value.items != []
    ensures Moves(a, AfterHigh(SendHigh(a, h), h, t), 1, p)
  {
    HighCounts(a, h, t, p);
  }

  lemma LowMoves(a: Actor, h: Hooks, p: nat)
    requires Threshold(a) > 0 && Waits(a, p)
    ensures Moves(a, SendLow(a, h), 0, p)
  {
    LowCounts(a, h, p);
  }

  /** While a low frame waits, only shutdown, high and low branches are chosen. */
  lemma WaitingChoice(a: Actor, p: nat)
    requires Waits(a, p)
    ensures Choose(a).Some?
    ensures Choose(a).value.OnShutdown? || Choose(a).value.OnHigh? || Choose(a).value.OnLow?
  {
  }

  lemma ShutdownAdvances(a: Actor, p: nat)
    requires Threshold(a) > 0 && Waits(a, p)
    ensures Moves(a, Shutdown(a), 0, p)
  {
  }

  lemma CloseHighAdvances(a: Actor, p: nat)
    requires Threshold(a) > 0 && Waits(a, p)
    ensures Moves(a, CloseHigh(a), 0, p)
  {
    assert Threshold(a) * p >= 0;
  }

  lemma ActAdvances(s: System, b: Branch, t: Clock, h: Hooks, p: nat)
    requires Possible(s, Act(b, t)) && Choose(s.actor) == Some(b)
    requires Threshold(s.actor) > 0 && Waits(s.actor, p)
    ensures Advances(s, Act(b, t), After(s, Act(b, t), h), p)
  {
    var a := s.actor;
    WaitingChoice(a, p);
    if b.OnShutdown? {
      ShutdownAdvances(a, p);
    } else if b.OnLow? {
      LowMoves(a, h, p);
    } else if a.high.value.items != [] {
      HighMoves(a, h, t, p);
    } else {
      CloseHighAdvances(a, p);
    }
  }

  lemma StepAdvances(s: System, step: Step, h: Hooks, p: nat)
    requires Possible(s, step) && (step.Act? ==> Choose(s.actor) == Some(step.branch))
    requires Threshold(s.actor) > 0 && Waits(s.actor, p)
    ensures Advances(s, step, After(s, step, h), p)
  {
    if step.Act? {
      ActAdvances(s, step.branch, step.clock, h, p);
    }
  }

  lemma {:induction false} LowEmittedGrows(s: System, steps: seq<Step>, h: Hooks)
    requires T.Legal(s, steps, h)
    ensures From(s.actor.log, Low) <= From(T.AfterAll(s, steps, h).actor.log, Low)
    decreases steps
  {
    if steps != [] {
      LowEmittedGrows(After(s, steps[0], h), steps[1..], h);
      StepGrows(s, steps[0], h);
    }
  }

  lemma HandleGrows(a: Actor, b: Branch, h: Hooks, t: Clock)
    requires Ready(a, b)
    ensures a.log <= Handle(a, b, h, t).log
  {
    if b.OnHigh? && a.high.value.items != [] {
      var sent := SendHigh(a, h);
      var counted := sent.(fairness := F.Record(sent.fairness, t.record));
      TriesGrow(counted, h);
      TriesGrow(TryLow(counted, h).0, h);
    }
  }

  lemma TriesGrow(a: Actor, h: Hooks)
    ensures a.log <= TryLow(a, h).0.log && a.log <= TryMulti(a, h).log
  {
  }

  lemma StepGrows(s: System, step: Step, h: Hooks)
    requires Possible(s, step)
    ensures From(s.actor.log, Low) <= From(After(s, step, h).actor.log, Low)
  {
    if step.Act? {
      HandleGrows(s.actor, step.branch, h, step.clock);
    }
    PrefixGrows(s.actor.log, After(s, step, h).actor.log);
  }

  lemma {:induction false} PrefixGrows(log: seq<Sent>, longer: seq<Sent>)
    requires log <= longer
    ensures From(log, Low) <= From(longer, Low)
    decreases |longer|
  {
    if log != longer {
      PrefixGrows(log, longer[..|longer| - 1]);
    } else {
      assert log == longer;
    }
  }

  lemma {:induction false} HighStepsBounded(s: System, steps: seq<Step>, h: Hooks, p: nat)
    requires T.Legal(s, steps, h) && Biased(s, steps, h)
    requires Threshold(s.actor) > 0 && Waits(s.actor, p)
    requires LowEmitted(s.actor, T.AfterAll(s, steps, h).actor) <= p
    ensures HighSteps(s, steps, h) < Patience(s.actor, p)
    decreases steps
  {
    if steps == [] {
      PatiencePositive(s.actor, p);
    } else {
      var s' := After(s, steps[0], h);
      StepAdvances(s, steps[0], h, p);
      LowEmittedGrows(s', steps[1..], h);
      HighStepsBounded(s', steps[1..], h, p - LowEmitted(s.actor, s'.actor));
    }
  }

  lemma {:induction false} EmittedByThen(s: System, steps: seq<Step>, h: Hooks, p: nat)
    requires T.Legal(s, steps, h) && Biased(s, steps, h)
    requires Threshold(s.actor) > 0 && Waits(s.actor, p)
    requires HighSteps(s, steps, h) >= Threshold(s.actor) * (p + 1)
    ensures LowEmitted(s.actor, T.AfterAll(s, steps, h).actor) > p
  {
    if LowEmitted(s.actor, T.AfterAll(s, steps, h).actor) <= p {
      HighStepsBounded(s, steps, h, p);
      PatienceBound(s.actor, p);
    }
  }

  lemma PatiencePositive(a: Actor, p: nat)
    requires Threshold(a) > 0
    ensures Patience(a, p) >= 1
  {
    assert Threshold(a) * p >= 0;
  }

  lemma PatienceBound(a: Actor, p: nat)
    requires Threshold(a) > 0
    ensures Patience(a, p) <= Threshold(a) * (p + 1)
  {
    assert Threshold(a) * (p + 1) == Threshold(a) * p + Threshold(a);
    assert Threshold(a) * p >= 0;
  }

  /**
    Bounded bypass: with a threshold k > 0, whatever the time slice, the clock and the producers
    do, the low-priority frame with p frames ahead of it has been emitted by the time k·(p + 1)
    further high-priority frames have been.
   */
  lemma {:induction false} BoundedBypass(s: System, steps: seq<Step>, h: Hooks, p: nat)
    requires Inv(s, h) && T.Legal(s, steps, h) && Biased(s, steps, h)
    requires Threshold(s.actor) > 0 && Waits(s.actor, p)
    requires HighSteps(s, steps, h) >= Threshold(s.actor) * (p + 1)
    ensures var before, after := From(s.actor.log, Low), From(T.AfterAll(s, steps, h).actor.log, Low);
            |after| > |before| + p && after[|before| + p] == s.actor.low.value.items[p]
  {
    EmittedByThen(s, steps, h, p);
    T.RunKeeps(s, steps, h);
    SentGrows(s, steps, h);
    LowFrameIs(s, T.AfterAll(s, steps, h), p);
  }

  /** Conservation tells which frame the (p + 1)-th later emission is. */
  lemma LowFrameIs(s: System, e: System, p: nat)
    requires QueuesConserved(s) && QueuesConserved(e) && s.sentLow <= e.sentLow && Waits(s.actor, p)
    requires LowEmitted(s.actor, e.actor) > p
    ensures From(e.actor.log, Low)[|From(s.actor.log, Low)| + p] == s.actor.low.value.items[p]
  {
    var at := |From(s.actor.log, Low)| + p;
    assert s.sentLow[at] == s.actor.low.value.items[p];
    assert e.sentLow[at] == From(e.actor.log, Low)[at];
  }

  lemma {:induction false} SentGrows(s: System, steps: seq<Step>, h: Hooks)
    requires T.Legal(s, steps, h)
    ensures s.sentLow <= T.AfterAll(s, steps, h).sentLow
    decreases steps
  {
    if steps != [] {
      SentGrows(After(s, steps[0], h), steps[1..], h);
    }
  }

  // ---------------------------------------------------------------- without a threshold

  /** No threshold, and no time slice that has run out at `t`. */
  predicate Lax(b: F.Burst, t: nat) {
    && b.config.maxHighBeforeLow == 0
    && (b.config.timeSlice.Some? ==>
          (if b.highCounter > 0 && b.highStart.Some? && b.highStart.value < t then t - b.highStart.value else 0)
          < b.config.timeSlice.value)
  }

  /** `n` times: a high frame is sent, and the actor takes a turn at time `t`. */
  function Flood(f: Frame, t: nat, n: nat): seq<Step> {
    if n == 0 then [] else [PushHigh(f), Act(OnHigh, Clock(t, t))] + Flood(f, t, n - 1)
  }

  /** A running actor whose high queue is open, not about to shut down, and owed no yield at `t`. */
  predicate Floodable(a: Actor, t: nat) {
    Running(a) && Open(a.high) && !Ready(a, OnShutdown) && Lax(a.fairness, t)
  }

  /** One round of the flood leaves the low queue alone. */
  lemma FloodRound(s: System, h: Hooks, f: Frame, t: nat)
    requires Floodable(s.actor, t)
    ensures Possible(s, PushHigh(f))
    ensures var pushed := After(s, PushHigh(f), h);
            var act := Act(OnHigh, Clock(t, t));
            && Choose(pushed.actor) == Some(OnHigh) && Possible(pushed, act) && HighStep(pushed, act)
            && var e := After(pushed, act, h).actor;
               Floodable(e, t) && e.low == s.actor.low && From(e.log, Low) == From(s.actor.log, Low)
  {
    var a := After(s, PushHigh(f), h).actor;
    I.FromAppendAll(a.log, SendHigh(a, h).log[|a.log|], SendHigh(a, h).log);
  }

  /**
    The threshold is what bounds the wait: without one, and while no time slice runs out, there is
    for every n a biased run with n further high-priority frames in which no low-priority frame
    has gone out and the low queue still holds all it held.
   */
  lemma {:induction false} Starvation(s: System, h: Hooks, f: Frame, t: nat, n: nat)
    requires Floodable(s.actor, t)
    ensures var steps := Flood(f, t, n);
            && T.Legal(s, steps, h) && Biased(s, steps, h) && HighSteps(s, steps, h) == n
            && var e := T.AfterAll(s, steps, h).actor;
               e.low == s.actor.low && From(e.log, Low) == From(s.actor.log, Low)
    decreases n
  {
    if n > 0 {
      FloodRound(s, h, f, t);
      var pushed := After(s, PushHigh(f), h);
      var e := After(pushed, Act(OnHigh, Clock(t, t)), h);
      Starvation(e, h, f, t, n - 1);
      var steps, rest := Flood(f, t, n), Flood(f, t, n - 1);
      assert steps[1..][1..] == rest && steps[1..][0] == Act(OnHigh, Clock(t, t));
    }
  }
}
