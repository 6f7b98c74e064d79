/** Runs of a machine that keeps one entry per key, and when keys cannot tell each other are there. */
module KeyedRuns {
  import opened Base

  datatype Event<+F> = Event(frame: F, now: nat)

  /** One step: the entries, a frame and the time, to the new entries and the outcome. */
  type Step<!P, -F, +O> = (map<u64, P>, F, nat) -> (map<u64, P>, O)

  /** What the passing of time leaves of the entries. */
  type Purge<!P> = (map<u64, P>, nat) -> map<u64, P>

  /** The entries after a list of events from none, and the outcome of each event. */
  ghost function Run<P, F, O>(step: Step<P, F, O>, events: seq<Event<F>>): (r: (map<u64, P>, seq<O>))
    ensures |r.1| == |events|
  {
    if events == [] then (map[], [])
    else
      var (m, outs) := Run(step, events[..|events| - 1]);
      var last := events[|events| - 1];
      var (m', out) := step(m, last.frame, last.now);
      (m', outs + [out])
  }

  /** The outcomes of the first events are those of the run of these events. */
  lemma {:induction false} RunPrefix<P, F, O>(step: Step<P, F, O>, events: seq<Event<F>>, n: nat)
    requires n <= |events|
    ensures Run(step, events).1[..n] == Run(step, events[..n]).1
    decreases |events|
  {
    if n == |events| {
      assert events[..n] == events && Run(step, events).1[..n] == Run(step, events).1;
    } else {
      var k := |events| - 1;
      RunPrefix(step, events[..k], n);
      assert events[..k][..n] == events[..n];
      assert Run(step, events).1[..k] == Run(step, events[..k]).1;
    }
  }

  /** A property of the empty state that every step keeps holds in every reachable state. */
  lemma {:induction false} RunKeeps<P(!new), F(!new), O>(step: Step<P, F, O>, inv: map<u64, P> -> bool,
                                                        events: seq<Event<F>>)
    requires inv(map[])
    requires forall m: map<u64, P>, f: F, now: nat :: inv(m) ==> inv(step(m, f, now).0)
    ensures inv(Run(step, events).0)
    decreases |events|
  {
    if events != [] {
      RunKeeps(step, inv, events[..|events| - 1]);
    }
  }

  function Only<P>(m: map<u64, P>, k: u64): map<u64, P> {
    map j | j in m && j == k :: m[j]
  }

  /** The events of one key. */
  function For<F>(key: F -> u64, events: seq<Event<F>>, k: u64): seq<Event<F>> {
    if events == [] then []
    else
      var n := |events| - 1;
      For(key, events[..n], k) + (if key(events[n].frame) == k then [events[n]] else [])
  }

  /** The outcomes of one key's events. */
  function OutcomesFor<F, O>(key: F -> u64, events: seq<Event<F>>, outs: seq<O>, k: u64): seq<O>
    requires |outs| == |events|
  {
    if events == [] then []
    else
      var n := |events| - 1;
      OutcomesFor(key, events[..n], outs[..n], k) + (if key(events[n].frame) == k then [outs[n]] else [])
  }

  predicate Ordered<F>(events: seq<Event<F>>) {
    forall i, j :: 0 <= i < j < |events| ==> events[i].now <= events[j].now
  }

  /** No outcome is one that depends on other keys. */
  predicate Unrefused<O>(refused: O -> bool, outs: seq<O>) {
    forall i :: 0 <= i < |outs| ==> !refused(outs[i])
  }

  // ---------------------------------------------------------------- independence of keys

  /** A step that is not refused for the sake of others is the solo step on its own key's entry. */
  ghost predicate LocalAt<P, F, O>(step: Step<P, F, O>, solo: Step<P, F, O>, key: F -> u64, refused: O -> bool,
                                   m: map<u64, P>, f: F, now: nat)
  {
    !refused(step(m, f, now).1) ==>
      solo(Only(m, key(f)), f, now) == (Only(step(m, f, now).0, key(f)), step(m, f, now).1)
  }

  /** A step on another key does to `k` what time alone does. */
  ghost predicate RemoteAt<P, F, O>(step: Step<P, F, O>, key: F -> u64, live: Purge<P>,
                                    m: map<u64, P>, f: F, now: nat, k: u64)
  {
    k != key(f) ==> Only(step(m, f, now).0, k) == live(Only(m, k), now)
  }

  /** A step sees only what time has left. */
  ghost predicate TimelyAt<P, F, O>(step: Step<P, F, O>, live: Purge<P>,
                                    a: map<u64, P>, b: map<u64, P>, f: F, now: nat)
  {
    live(a, now) == live(b, now) ==> step(a, f, now) == step(b, f, now)
  }

  /** What time has taken stays taken. */
  ghost predicate AgesAt<P>(live: Purge<P>, m: map<u64, P>, now: nat, later: nat) {
    now <= later ==> live(live(m, now), later) == live(m, later)
  }

  /** The facts about a step and its solo counterpart that make keys independent. */
  ghost predicate Local<P(!new), F(!new), O>(step: Step<P, F, O>, solo: Step<P, F, O>, key: F -> u64,
                                             refused: O -> bool, live: Purge<P>)
  {
    && (forall m: map<u64, P>, f: F, now: nat :: LocalAt(step, solo, key, refused, m, f, now))
    && (forall m: map<u64, P>, f: F, now: nat, k: u64 :: RemoteAt(step, key, live, m, f, now, k))
    && (forall a: map<u64, P>, b: map<u64, P>, f: F, now: nat :: TimelyAt(solo, live, a, b, f, now))
    && (forall m: map<u64, P>, now: nat, later: nat :: AgesAt(live, m, now, later))
  }

  /** An event of the key itself, when the two runs held the same for it. */
  lemma {:induction false} OwnStep<P(!new), F(!new), O>(
    step: Step<P, F, O>, solo: Step<P, F, O>, key: F -> u64, refused: O -> bool, live: Purge<P>,
    events: seq<Event<F>>, k: u64)
    requires Local(step, solo, key, refused, live)
    requires events != [] && key(events[|events| - 1].frame) == k
    requires var e, m := events[|events| - 1], Run(step, events[..|events| - 1]).0;
             && !refused(step(m, e.frame, e.now).1)
             && live(Only(m, k), e.now) == live(Run(solo, For(key, events[..|events| - 1], k)).0, e.now)
    ensures var e, before := events[|events| - 1], events[..|events| - 1];
            && Run(solo, For(key, events, k)).0 == Only(Run(step, events).0, k)
            && Run(solo, For(key, events, k)).1
            == Run(solo, For(key, before, k)).1 + [step(Run(step, before).0, e.frame, e.now).1]
  {
    var n := |events| - 1;
    var before, e := events[..n], events[n];
    var m, s := Run(step, before).0, Run(solo, For(key, before, k)).0;
    assert LocalAt(step, solo, key, refused, m, e.frame, e.now);
    assert TimelyAt(solo, live, Only(m, k), s, e.frame, e.now);
    ForLast(key, events, k);
  }

  /** At any time from the last event on, the full run and the key's own run hold the same for it. */
  lemma {:induction false} SameSlot<P(!new), F(!new), O>(
    step: Step<P, F, O>, solo: Step<P, F, O>, key: F -> u64, refused: O -> bool, live: Purge<P>,
    events: seq<Event<F>>, k: u64, t: nat)
    requires Local(step, solo, key, refused, live) && Ordered(events)
    requires Unrefused(refused, OutcomesFor(key, events, Run(step, events).1, k))
    requires forall i :: 0 <= i < |events| ==> events[i].now <= t
    ensures live(Only(Run(step, events).0, k), t) == live(Run(solo, For(key, events, k)).0, t)
    decreases |events|
  {
    if events == [] {
      assert Only<P>(map[], k) == map[];
    } else {
      var n := |events| - 1;
      var before, e := events[..n], events[n];
      var m := Run(step, before).0;
      OutcomesLast(step, key, refused, events, k);
      if key(e.frame) == k {
        SameSlot(step, solo, key, refused, live, before, k, e.now);
        OwnStep(step, solo, key, refused, live, events, k);
      } else {
        SameSlot(step, solo, key, refused, live, before, k, t);
        assert RemoteAt(step, key, live, m, e.frame, e.now, k);
        assert AgesAt(live, Only(m, k), e.now, t);
        assert For(key, events, k) == For(key, before, k);
      }
    }
  }

  lemma {:induction false} ForLast<F>(key: F -> u64, events: seq<Event<F>>, k: u64)
    requires events != [] && key(events[|events| - 1].frame) == k
    ensures var q, n := For(key, events, k), |events| - 1;
            q != [] && q[..|q| - 1] == For(key, events[..n], k) && q[|q| - 1] == events[n]
  {
  }

  /** The outcomes of a key without and with the last event. */
  lemma OutcomesLast<P, F, O>(step: Step<P, F, O>, key: F -> u64, refused: O -> bool, events: seq<Event<F>>, k: u64)
    requires events != []
    ensures var n := |events| - 1;
            var before := OutcomesFor(key, events[..n], Run(step, events[..n]).1, k);
            var outs := OutcomesFor(key, events, Run(step, events).1, k);
            var e := events[n];
            && outs == before + (if key(e.frame) == k then [step(Run(step, events[..n]).0, e.frame, e.now).1] else [])
            && (Unrefused(refused, outs) ==> Unrefused(refused, before))
            && (Unrefused(refused, outs) && key(e.frame) == k ==> !refused(outs[|outs| - 1]))
  {
    var n := |events| - 1;
    assert Run(step, events).1[..n] == Run(step, events[..n]).1;
    var before := OutcomesFor(key, events[..n], Run(step, events[..n]).1, k);
    var outs := OutcomesFor(key, events, Run(step, events).1, k);
    assert forall i :: 0 <= i < |before| ==> before[i] == outs[i];
  }

  lemma {:induction false} KeysIndependent<P(!new), F(!new), O>(
    step: Step<P, F, O>, solo: Step<P, F, O>, key: F -> u64, refused: O -> bool, live: Purge<P>,
    events: seq<Event<F>>, k: u64)
    requires Local(step, solo, key, refused, live) && Ordered(events)
    requires Unrefused(refused, OutcomesFor(key, events, Run(step, events).1, k))
    ensures OutcomesFor(key, events, Run(step, events).1, k) == Run(solo, For(key, events, k)).1
    decreases |events|
  {
    if events != [] {
      var n := |events| - 1;
      var before, e := events[..n], events[n];
      OutcomesLast(step, key, refused, events, k);
      KeysIndependent(step, solo, key, refused, live, before, k);
      if key(e.frame) == k {
        SameSlot(step, solo, key, refused, live, before, k, e.now);
        OwnStep(step, solo, key, refused, live, events, k);
      } else {
        assert For(key, events, k) == For(key, before, k);
      }
    }
  }

  lemma {:induction false} Selected<F, O>(key: F -> u64, refused: O -> bool,
                                          events: seq<Event<F>>, outs: seq<O>, k: u64)
    requires |outs| == |events| && Unrefused(refused, outs)
    ensures Unrefused(refused, OutcomesFor(key, events, outs, k))
    decreases |events|
  {
    if events != [] {
      Selected(key, refused, events[..|events| - 1], outs[..|events| - 1], k);
    }
  }

  lemma {:induction false} ForKeys<F>(key: F -> u64, events: seq<Event<F>>, k: u64)
    ensures forall i :: 0 <= i < |For(key, events, k)| ==> key(For(key, events, k)[i].frame) == k
    decreases |events|
  {
    if events != [] {
      ForKeys(key, events[..|events| - 1], k);
    }
  }

  // ---------------------------------------------------------------- the state as a matter of history

  function Slot<P>(m: map<u64, P>, k: u64): Option<P> {
    if k in m then Some(m[k]) else None
  }

  /** How a key's story is told: how long it lasts, and what an event of the key makes of it. */
  datatype Telling<!S, -F, -O> = Telling(lasts: (S, nat) -> bool, tell: (Option<S>, F, nat, O) -> Option<S>)

  /** What is left of a story at a time. */
  function Kept<S, F, O>(t: Telling<S, F, O>, story: Option<S>, now: nat): Option<S> {
    if story.Some? && t.lasts(story.value, now) then story else None
  }

  /** The story after one more event with its outcome. */
  function Told<S, F, O>(t: Telling<S, F, O>, key: F -> u64, k: u64, story: Option<S>, e: Event<F>, out: O): Option<S> {
    var kept := Kept(t, story, e.now);
    if key(e.frame) == k then t.tell(kept, e.frame, e.now, out) else kept
  }

  /** A key's story, from the events and their outcomes alone. */
  function Story<S, F, O>(t: Telling<S, F, O>, key: F -> u64, events: seq<Event<F>>, outs: seq<O>, k: u64): Option<S>
    requires |outs| == |events|
  {
    if events == [] then None
    else
      var n := |events| - 1;
      Told(t, key, k, Story(t, key, events[..n], outs[..n], k), events[n], outs[n])
  }

  /** One step takes an entry that matches a story to one that matches the story told on. */
  ghost predicate TellsAt<P, S, F, O>(step: Step<P, F, O>, t: Telling<S, F, O>, key: F -> u64,
                                      matches: (u64, Option<P>, Option<S>) -> bool,
                                      m: map<u64, P>, e: Event<F>, k: u64, story: Option<S>)
  {
    matches(k, Slot(m, k), story) ==>
      var (m', out) := step(m, e.frame, e.now);
      matches(k, Slot(m', k), Told(t, key, k, story, e, out))
  }

  /** If every step tells the story on, then after every run each entry is what its story says. */
  lemma {:induction false} StoryHolds<P(!new), S(!new), F(!new), O>(
    step: Step<P, F, O>, t: Telling<S, F, O>, key: F -> u64, matches: (u64, Option<P>, Option<S>) -> bool,
    events: seq<Event<F>>, k: u64)
    requires matches(k, None, None)
    requires forall m: map<u64, P>, e: Event<F>, story: Option<S> :: TellsAt(step, t, key, matches, m, e, k, story)
    ensures matches(k, Slot(Run(step, events).0, k), Story(t, key, events, Run(step, events).1, k))
    decreases |events|
  {
    if events != [] {
      var n := |events| - 1;
      StoryHolds(step, t, key, matches, events[..n], k);
      var (m, outs) := Run(step, events[..n]);
      assert Run(step, events).1[..n] == outs;
      assert TellsAt(step, t, key, matches, m, events[n], k, Story(t, key, events[..n], outs, k));
    }
  }

  /** A story that has been told and is no longer kept has ended somewhere in between: by time, or by an outcome. */
  lemma {:induction false} StoryEnds<S, F, O>(t: Telling<S, F, O>, key: F -> u64, events: seq<Event<F>>, outs: seq<O>,
                                              k: u64, i: nat, now: nat) returns (n: nat)
    requires |outs| == |events| && i <= |events|
    requires Story(t, key, events[..i], outs[..i], k).Some?
    requires Kept(t, Story(t, key, events, outs, k), now) == None
    ensures i <= n <= |events|
    ensures var story := Story(t, key, events[..n], outs[..n], k);
            && story.Some?
            && if n == |events| then !t.lasts(story.value, now)
               else Told(t, key, k, story, events[n], outs[n]) == None
    decreases |events| - i
  {
    assert events[..|events|] == events && outs[..|outs|] == outs;
    if i == |events| {
      n := i;
    } else {
      assert events[..i + 1][..i] == events[..i] && outs[..i + 1][..i] == outs[..i];
      if Story(t, key, events[..i + 1], outs[..i + 1], k).None? {
        n := i;
      } else {
        n := StoryEnds(t, key, events, outs, k, i + 1, now);
      }
    }
  }

  // ---------------------------------------------------------------- runs that go as expected

  function Outcomes<O>(expected: nat -> O, n: nat): (outs: seq<O>)
    ensures |outs| == n
  {
    seq(n, (j: nat) => expected(j))
  }

  /** A plan for a run: what is held and what comes out as long as the first so many events fit. */
  datatype Plan<!P, +O> = Plan(holds: nat -> map<u64, P>, expected: nat -> O, fits: nat -> bool)

  /** Event `j` goes as expected exactly when it still fits. */
  ghost predicate FollowsPlan<P, F, O>(step: Step<P, F, O>, events: seq<Event<F>>, plan: Plan<P, O>, j: nat)
    requires j < |events|
  {
    && (plan.fits(j + 1) ==> plan.fits(j))
    && (plan.fits(j) ==>
          var (m, out) := step(plan.holds(j), events[j].frame, events[j].now);
          && (out == plan.expected(j) <==> plan.fits(j + 1))
          && (plan.fits(j + 1) && j + 1 < |events| ==> m == plan.holds(j + 1)))
  }

  /** A run goes as planned exactly as far as the plan fits. */
  lemma {:induction false} RunsToPlan<P, F, O>(step: Step<P, F, O>, events: seq<Event<F>>, plan: Plan<P, O>, n: nat)
    requires n <= |events| && plan.fits(0) && plan.holds(0) == map[]
    requires forall j :: 0 <= j < |events| ==> FollowsPlan(step, events, plan, j)
    ensures var (m, outs) := Run(step, events[..n]);
            && (outs == Outcomes(plan.expected, n) <==> plan.fits(n))
            && (plan.fits(n) && n < |events| ==> m == plan.holds(n))
  {
    if n > 0 {
      var j := n - 1;
      RunsToPlan(step, events, plan, j);
      assert FollowsPlan(step, events, plan, j);
      var (m, outs) := Run(step, events[..j]);
      assert events[..n][..j] == events[..j] && events[..n][j] == events[j];
      assert Outcomes(plan.expected, n) == Outcomes(plan.expected, j) + [plan.expected(j)];
      OneMore(outs, step(m, events[j].frame, events[j].now).1, Outcomes(plan.expected, j), plan.expected(j));
    }
  }

  lemma OneMore<T>(a: seq<T>, x: T, b: seq<T>, y: T)
    requires |a| == |b|
    ensures a + [x] == b + [y] <==> a == b && x == y
  {
    assert (a + [x])[..|a|] == a && (b + [y])[..|b|] == b;
    assert (a + [x])[|a|] == x && (b + [y])[|b|] == y;
  }
}
