/** Fragments of many messages through one reassembler, in any interleaving. */
module ReassemblyRuns {
  import opened Base
  import opened FragmentWire
  import opened Fragmenter
  import opened KeyedRuns
  import opened FragmentTheorems
  import R = Reassembler
  import S = FragmentSeries

  /** The reassembler as a machine that keeps one entry per message. */
  ghost function Machine(l: R.Limits): Step<R.Partial, FragmentFrame, R.Outcome> {
    (m: R.Partials, f: FragmentFrame, now: nat) => R.Push(l, m, f.header, f.payload, now)
  }

  function IdOf(f: FragmentFrame): u64 { f.header.messageId }

  /** The outcomes that depend on what other messages hold. */
  predicate Crowded(out: R.Outcome) {
    out.Err? && (out.error.TooManyConcurrentPartials? || out.error.AggregateBufferCapExceeded?)
  }

  function Unlimited(l: R.Limits): R.Limits { l.(maxPartials := None, maxBuffered := None) }

  ghost function Purged(l: R.Limits): Purge<R.Partial> {
    (m: R.Partials, now: nat) => R.Live(l, m, now)
  }

  // ---------------------------------------------------------------- independence of messages

  /** Alone, a message has the whole counter to itself. */
  lemma AloneTotal(m: R.Partials, id: u64)
    requires m.Keys <= {id}
    ensures R.Total(m) == if id in m then |m[id].buffer| else 0
  {
    if id in m {
      R.TotalInsert(m, id, m[id]);
      assert R.Sizes(m - {id}) == map[];
    } else {
      assert R.Sizes(m) == map[];
    }
  }

  /** A fragment not refused for the sake of others is treated as if its message were alone. */
  lemma PushLocal(l: R.Limits, m: R.Partials, f: FragmentFrame, now: nat)
    requires !Crowded(Machine(l)(m, f, now).1)
    ensures Machine(Unlimited(l))(Only(m, IdOf(f)), f, now)
         == (Only(Machine(l)(m, f, now).0, IdOf(f)), Machine(l)(m, f, now).1)
  {
    var live := R.Live(l, m, now);
    var own := Only(live, IdOf(f));
    assert R.Live(Unlimited(l), Only(m, IdOf(f)), now) == own;
    AloneTotal(own, IdOf(f));
    if IdOf(f) in live {
      ExistingLocal(l, live, f.header, f.payload);
    } else {
      FirstLocal(l, live, f.header, f.payload, now);
    }
  }

  lemma FirstLocal(l: R.Limits, m: R.Partials, h: FragmentHeader, body: bytes, now: nat)
    requires h.messageId !in m && !Crowded(R.PushFirst(l, m, h, body, now).1)
    ensures var (m', out) := R.PushFirst(l, m, h, body, now);
            var (own, alone) := R.PushFirst(Unlimited(l), Only(m, h.messageId), h, body, now);
            own == Only(m', h.messageId) && alone == out
  {
    assert Only(m, h.messageId) == map[];
    AloneTotal(map[], h.messageId);
  }

  lemma ExistingLocal(l: R.Limits, m: R.Partials, h: FragmentHeader, body: bytes)
    requires h.messageId in m && !Crowded(R.PushExisting(l, m, h, body).1)
    ensures var (m', out) := R.PushExisting(l, m, h, body);
            var (own, alone) := R.PushExisting(Unlimited(l), Only(m, h.messageId), h, body);
            own == Only(m', h.messageId) && alone == out
  {
    AloneTotal(Only(m, h.messageId), h.messageId);
  }

  /** Alone and without the crowd limits, nothing is refused for the sake of others. */
  lemma PushUncrowded(l: R.Limits, m: R.Partials, f: FragmentFrame, now: nat)
    requires m.Keys <= {IdOf(f)}
    ensures Machine(Unlimited(l))(m, f, now).0.Keys <= {IdOf(f)} && !Crowded(Machine(Unlimited(l))(m, f, now).1)
  {
    AloneTotal(R.Live(Unlimited(l), m, now), IdOf(f));
  }

  lemma {:induction false} NeverCrowded(l: R.Limits, events: seq<Event<FragmentFrame>>, id: u64)
    requires forall i :: 0 <= i < |events| ==> IdOf(events[i].frame) == id
    ensures var (m, outs) := Run(Machine(Unlimited(l)), events); m.Keys <= {id} && Unrefused(Crowded, outs)
    decreases |events|
  {
    if events != [] {
      var n := |events| - 1;
      NeverCrowded(l, events[..n], id);
      PushUncrowded(l, Run(Machine(Unlimited(l)), events[..n]).0, events[n].frame, events[n].now);
    }
  }

  lemma OthersUntouched(l: R.Limits, m: R.Partials, f: FragmentFrame, now: nat, id: u64)
    requires id != IdOf(f)
    ensures Only(Machine(l)(m, f, now).0, id) == R.Live(l, Only(m, id), now)
  {
  }

  lemma MachineLocal(l: R.Limits)
    ensures Local(Machine(l), Machine(Unlimited(l)), IdOf, Crowded, Purged(l))
  {
    var step, solo := Machine(l), Machine(Unlimited(l));
    forall m: R.Partials, f: FragmentFrame, now: nat
      ensures LocalAt(step, solo, IdOf, Crowded, m, f, now)
    {
      if !Crowded(step(m, f, now).1) {
        PushLocal(l, m, f, now);
      }
    }
    forall m: R.Partials, f: FragmentFrame, now: nat, id: u64
      ensures RemoteAt(step, IdOf, Purged(l), m, f, now, id)
    {
      if id != IdOf(f) {
        OthersUntouched(l, m, f, now, id);
      }
    }
    forall a: R.Partials, b: R.Partials, f: FragmentFrame, now: nat
      ensures TimelyAt(solo, Purged(l), a, b, f, now)
    {
      LiveUnlimited(l, a, now);
      LiveUnlimited(l, b, now);
    }
    forall m: R.Partials, now: nat, later: nat
      ensures AgesAt(Purged(l), m, now, later)
    {
      LiveLater(l, m, now, later);
    }
  }

  lemma LiveUnlimited(l: R.Limits, m: R.Partials, now: nat)
    ensures R.Live(Unlimited(l), m, now) == R.Live(l, m, now)
  {
  }

  lemma LiveLater(l: R.Limits, m: R.Partials, now: nat, later: nat)
    ensures now <= later ==> R.Live(l, R.Live(l, m, now), later) == R.Live(l, m, later)
  {
  }

  /**
    Messages do not disturb each other: with timestamps that do not go back, the outcomes of a
    message's fragments in any interleaving are those of the run holding only that message and no
    crowd limits, if and only if no crowd limit refused one of them.
   */
  lemma {:induction false} MessagesIndependent(l: R.Limits, events: seq<Event<FragmentFrame>>, id: u64)
    requires Ordered(events)
    ensures var outs := OutcomesFor(IdOf, events, Run(Machine(l), events).1, id);
            outs == Run(Machine(Unlimited(l)), For(IdOf, events, id)).1 <==> Unrefused(Crowded, outs)
  {
    var outs := OutcomesFor(IdOf, events, Run(Machine(l), events).1, id);
    ForKeys(IdOf, events, id);
    NeverCrowded(l, For(IdOf, events, id), id);
    if Unrefused(Crowded, outs) {
      MachineLocal(l);
      KeysIndependent(Machine(l), Machine(Unlimited(l)), IdOf, Crowded, Purged(l), events, id);
    }
  }

  // ---------------------------------------------------------------- delivery in any interleaving

  /** A message's fragments in a delivery order. */
  function Delivery(frames: seq<FragmentFrame>, order: seq<nat>, times: seq<nat>): (es: seq<Event<FragmentFrame>>)
    requires |times| == |order| && forall j :: 0 <= j < |order| ==> order[j] < |frames|
    ensures |es| == |order|
  {
    seq(|order|, j requires 0 <= j < |order| => Event(frames[order[j]], times[j]))
  }

  /** Silence until the last of `total` fragments, which brings the message. */
  function ExpectedAt(id: u64, payload: bytes, total: nat, j: nat): R.Outcome {
    if j + 1 < total then Ok(None) else Ok(Some(R.Message(id, payload)))
  }

  /** The reassembler alone with a message of which `k` fragments have been taken. */
  function Holding(id: u64, pieces: seq<bytes>, k: nat, t0: nat): R.Partials
    requires k < |pieces| <= MAX_FRAGMENTS
  {
    if k == 0 then map[] else map[id := R.Partial(S.Series(id, k, false), Concat(pieces[..k]), t0)]
  }

  lemma NextPiece(pieces: seq<bytes>, k: nat)
    requires k < |pieces|
    ensures Concat(pieces[..k]) + pieces[k] == Concat(pieces[..k + 1])
    ensures |Concat(pieces[..k])| <= |Concat(pieces[..k + 1])|
    ensures k + 1 == |pieces| ==> Concat(pieces[..k + 1]) == Concat(pieces)
  {
    assert pieces[..k] + [pieces[k]] == pieces[..k + 1];
    ConcatAppend(pieces[..k], pieces[k]);
    assert k + 1 == |pieces| ==> pieces[..k + 1] == pieces;
  }

  /** The fragment in turn is taken exactly when the bytes so far fit the message limit. */
  lemma SoloNext(l: R.Limits, id: u64, pieces: seq<bytes>, k: nat, t0: nat, now: nat)
    requires k < |pieces| <= MAX_FRAGMENTS && l == Unlimited(l)
    requires k > 0 ==> Fresh(l, t0, now)
    requires k == 0 ==> now == t0
    ensures var header := FragmentHeader(id, k, k == |pieces| - 1);
            var (m, out) := R.Push(l, Holding(id, pieces, k, t0), header, pieces[k], now);
            var fits := |Concat(pieces[..k + 1])| <= l.maxMessageSize;
            && (out == ExpectedAt(id, Concat(pieces), |pieces|, k) <==> fits)
            && (fits && k + 1 < |pieces| ==> m == Holding(id, pieces, k + 1, t0))
  {
    var m := Holding(id, pieces, k, t0);
    NextPiece(pieces, k);
    AloneTotal(m, id);
    if k == 0 {
      assert pieces[..0] == [] && [] + pieces[0] == pieces[0];
      assert R.Live(l, m, now) == m;
    } else {
      assert R.Live(l, m, now) == m;
      if |m[id].buffer| + |pieces[k]| <= l.maxMessageSize {
        PushInTurn(l, m, id, k, k == |pieces| - 1, pieces[k]);
      }
    }
  }

  lemma SoloAgain(l: R.Limits, id: u64, pieces: seq<bytes>, k: nat, i: nat, t0: nat, now: nat)
    requires i < k < |pieces| <= MAX_FRAGMENTS && Fresh(l, t0, now)
    ensures R.Push(l, Holding(id, pieces, k, t0), FragmentHeader(id, i, i == |pieces| - 1), pieces[i], now)
         == (Holding(id, pieces, k, t0), Ok(None))
  {
    var m := Holding(id, pieces, k, t0);
    assert R.Live(l, m, now) == m;
  }

  /** In an order without gaps the next fragment is in turn or a repetition, up to the last one. */
  lemma {:induction false} OrderAt(order: seq<nat>, k: nat, n: nat, j: nat)
    requires CompletesAtEnd(order, k, n) && k < n && j < |order|
    ensures var p := Progress(order[..j], k);
            && order[j] <= p < n && (j + 1 == |order| ==> p == n - 1 && order[j] == p)
            && Progress(order[..j + 1], k) == (if order[j] == p then p + 1 else p)
            && (j + 1 < |order| ==> Progress(order[..j + 1], k) < n)
    decreases order
  {
    var k' := if order[0] == k then k + 1 else k;
    if j == 0 {
      assert order[..1][1..] == [];
      if |order| == 1 {
        assert order[0] == n - 1;
      }
    } else {
      CompletesLater(order, k, n);
      assert k' < n;
      OrderAt(order[1..], k', n, j - 1);
      assert order[..j][1..] == order[1..][..j - 1] && order[..j + 1][1..] == order[1..][..j];
    }
  }

  /** How a message's fragments fare alone: taken as long as the bytes so far fit the message limit. */
  ghost function SoloPlan(l: R.Limits, id: u64, pieces: seq<bytes>, order: seq<nat>, t0: nat)
    : Plan<R.Partial, R.Outcome>
    requires |pieces| <= MAX_FRAGMENTS
  {
    Plan((j: nat) => var k := Taken(pieces, order, j); if k < |pieces| then Holding(id, pieces, k, t0) else map[],
         (j: nat) => ExpectedAt(id, Concat(pieces), |order|, j),
         (j: nat) => |Concat(pieces[..Taken(pieces, order, j)])| <= l.maxMessageSize)
  }

  /** How many fragments the first `j` deliveries bring. */
  function Taken(pieces: seq<bytes>, order: seq<nat>, j: nat): nat
    ensures Taken(pieces, order, j) <= |pieces|
  {
    var k := Progress(if j <= |order| then order[..j] else order, 0);
    if k <= |pieces| then k else |pieces|
  }

  /** One fragment of the order, when everything before it was taken. */
  lemma SoloStep(l: R.Limits, id: u64, pieces: seq<bytes>, order: seq<nat>, times: seq<nat>, j: nat)
    requires 1 <= |pieces| <= MAX_FRAGMENTS && l == Unlimited(l)
    requires CompletesAtEnd(order, 0, |pieces|) && |times| == |order| && j < |order|
    requires forall i :: 0 <= i < |order| ==> order[i] < |pieces|
    requires forall i :: 0 < i < |times| ==> Fresh(l, times[0], times[i])
    ensures FollowsPlan(Machine(l), Delivery(Tagged(id, pieces), order, times),
                        SoloPlan(l, id, pieces, order, times[0]), j)
  {
    OrderAt(order, 0, |pieces|, j);
    var k := Progress(order[..j], 0);
    NextPiece(pieces, k);
    if j > 0 {
      OrderAt(order, 0, |pieces|, 0);
      ProgressGrows(order, j);
    }
    if order[j] == k {
      SoloNext(l, id, pieces, k, times[0], times[j]);
    } else {
      SoloAgain(l, id, pieces, k, order[j], times[0], times[j]);
    }
  }

  /** Once the first fragment is in, something has been taken. */
  lemma ProgressGrows(order: seq<nat>, j: nat)
    requires 0 < j <= |order| && order[0] == 0
    ensures Progress(order[..j], 0) > 0
  {
  }

  lemma {:induction false} SoloRun(l: R.Limits, id: u64, pieces: seq<bytes>, order: seq<nat>, times: seq<nat>)
    requires 1 <= |pieces| <= MAX_FRAGMENTS && l == Unlimited(l)
    requires CompletesAtEnd(order, 0, |pieces|) && |times| == |order|
    requires forall j :: 0 <= j < |order| ==> order[j] < |pieces|
    requires forall j :: 0 < j < |times| ==> Fresh(l, times[0], times[j])
    ensures Run(Machine(l), Delivery(Tagged(id, pieces), order, times)).1
         == Outcomes((j: nat) => ExpectedAt(id, Concat(pieces), |order|, j), |order|)
       <==> |Concat(pieces)| <= l.maxMessageSize
  {
    var es := Delivery(Tagged(id, pieces), order, times);
    var plan := SoloPlan(l, id, pieces, order, times[0]);
    forall j | 0 <= j < |order|
      ensures FollowsPlan(Machine(l), es, plan, j)
    {
      SoloStep(l, id, pieces, order, times, j);
    }
    PlanEnds(l, id, pieces, order, times[0]);
    RunsToPlan(Machine(l), es, plan, |order|);
    assert es[..|order|] == es;
  }

  lemma {:induction false} PlanEnds(l: R.Limits, id: u64, pieces: seq<bytes>, order: seq<nat>, t0: nat)
    requires 1 <= |pieces| <= MAX_FRAGMENTS && CompletesAtEnd(order, 0, |pieces|)
    ensures var plan := SoloPlan(l, id, pieces, order, t0);
            && plan.fits(0) && plan.holds(0) == map[]
            && (plan.fits(|order|) <==> |Concat(pieces)| <= l.maxMessageSize)
  {
    assert order[..0] == [] && pieces[..0] == [];
    OrderAt(order, 0, |pieces|, |order| - 1);
    assert order[..|order|] == order && pieces[..|pieces|] == pieces;
  }

  /** Silence until the last of `total` fragments, which brings the message. */
  function Expected(id: u64, payload: bytes, total: nat): seq<R.Outcome> {
    Outcomes((j: nat) => ExpectedAt(id, payload, total, j), total)
  }

  /**
    Delivery in any interleaving: when the fragments of one message, in whatever traffic of other
    messages, come without gaps, with repetitions but in time, the message comes out whole with its
    last fragment and nothing before, if and only if it is within the message limit and no crowd
    limit refused one of its fragments.
   */
  lemma {:induction false} DeliveredInterleaved(l: R.Limits, id: u64, payload: bytes, cap: nat, order: seq<nat>,
                                                times: seq<nat>, events: seq<Event<FragmentFrame>>)
    requires cap > 0 && Fragments(id, payload, cap).Ok? && Ordered(events)
    requires CompletesAtEnd(order, 0, |Pieces(payload, cap)|) && |times| == |order|
    requires forall j :: 0 <= j < |order| ==> order[j] < |Pieces(payload, cap)|
    requires For(IdOf, events, id) == Delivery(Fragments(id, payload, cap).value, order, times)
    requires forall j :: 0 < j < |times| ==> Fresh(l, times[0], times[j])
    ensures var outs := OutcomesFor(IdOf, events, Run(Machine(l), events).1, id);
            outs == Expected(id, payload, |order|) <==> |payload| <= l.maxMessageSize && Unrefused(Crowded, outs)
  {
    PiecesCover(payload, cap);
    SoloRun(Unlimited(l), id, Pieces(payload, cap), order, times);
    MessagesIndependent(l, events, id);
    assert Unrefused(Crowded, Expected(id, payload, |order|));
  }
}
