/** Fragments that were sent come back as the message, through the tracker and the reassembler. */
module FragmentTheorems {
  import opened Base
  import opened FragmentWire
  import opened Fragmenter
  import S = FragmentSeries
  import R = Reassembler
  import Bincode
  import MapSum

  // ---------------------------------------------------------------- delivery schedules

  /** Fragments expected next after a delivery order, starting from `k`. */
  function Progress(order: seq<nat>, k: nat): (p: nat)
    ensures p >= k
  {
    if order == [] then k else Progress(order[1..], if order[0] == k then k + 1 else k)
  }

  /** The bodies a series takes from a delivery order, one after another. */
  function Collected(s: S.Series, frames: seq<FragmentFrame>, order: seq<nat>): bytes
    requires forall j :: 0 <= j < |order| ==> order[j] < |frames|
    decreases order
  {
    if order == [] then []
    else
      var f := frames[order[0]];
      var (s', r) := S.Accept(s, f.header);
      (if S.Taken(r) then f.payload else []) + Collected(s', frames, order[1..])
  }

  function Headers(frames: seq<FragmentFrame>, order: seq<nat>): (hs: seq<FragmentHeader>)
    requires forall j :: 0 <= j < |order| ==> order[j] < |frames|
    ensures |hs| == |order|
  {
    if order == [] then [] else [frames[order[0]].header] + Headers(frames, order[1..])
  }

  lemma {:induction false} CollectedNone(s: S.Series, frames: seq<FragmentFrame>, order: seq<nat>)
    requires s.complete
    requires forall j :: 0 <= j < |order| ==> order[j] < |frames|
    ensures Collected(s, frames, order) == []
    decreases order
  {
    if order != [] {
      CollectedNone(s, frames, order[1..]);
    }
  }

  lemma {:induction false} ProgressTop(order: seq<nat>, n: nat)
    requires forall j :: 0 <= j < |order| ==> order[j] < n
    ensures Progress(order, n) == n
  {
    if order != [] {
      ProgressTop(order[1..], n);
    }
  }

  /** Fragment `i` is taken by a series expecting `k` exactly when it is that fragment. */
  lemma Offered(id: u64, pieces: seq<bytes>, k: nat, i: nat)
    requires k < |pieces| <= MAX_FRAGMENTS && i < |pieces|
    ensures var f := Tagged(id, pieces)[i];
            var s := S.Series(id, k, false);
            var (s', r) := S.Accept(s, f.header);
            && (S.Taken(r) <==> i == k) && (i != k ==> s' == s)
            && (i == k ==> f.payload == pieces[k]
                           && if k + 1 == |pieces| then s'.complete else s' == S.Series(id, k + 1, false))
  {
  }

  /** Collecting the rest after the fragment in turn. */
  lemma {:induction false} ReplayFrom(id: u64, pieces: seq<bytes>, order: seq<nat>, k: nat)
    requires k < |pieces| <= MAX_FRAGMENTS
    requires forall j :: 0 <= j < |order| ==> order[j] < |pieces|
    ensures var frames := Tagged(id, pieces);
            var s := S.Series(id, k, false);
            var m := Progress(order, k);
            && m <= |pieces|
            && Concat(pieces[..k]) + Collected(s, frames, order) == Concat(pieces[..m])
            && (S.After(s, Headers(frames, order)).complete <==> m == |pieces|)
    decreases order
  {
    var frames, s := Tagged(id, pieces), S.Series(id, k, false);
    if order == [] {
      assert Concat(pieces[..k]) + [] == Concat(pieces[..k]);
    } else {
      var rest := order[1..];
      Offered(id, pieces, k, order[0]);
      assert Headers(frames, order)[1..] == Headers(frames, rest);
      var s' := S.Accept(s, frames[order[0]].header).0;
      var more := Collected(s', frames, rest);
      if order[0] != k {
        ReplayFrom(id, pieces, rest, k);
        assert [] + more == more;
      } else {
        assert pieces[..k] + [pieces[k]] == pieces[..k + 1];
        ConcatAppend(pieces[..k], pieces[k]);
        assert Concat(pieces[..k]) + (pieces[k] + more) == Concat(pieces[..k + 1]) + more;
        if k + 1 == |pieces| {
          CollectedNone(s', frames, rest);
          S.NothingAfterComplete(s', Headers(frames, rest));
          ProgressTop(rest, k + 1);
        } else {
          ReplayFrom(id, pieces, rest, k + 1);
        }
      }
    }
  }

  /**
    Deliver a message's fragments to a fresh series in any order, with any repetitions and gaps:
    what it takes is exactly the leading fragments that arrived in turn, and `Complete` is
    answered once if that is all of them, in which case the bodies are the payload; otherwise
    `Complete` is never answered.
   */
  lemma {:induction false} ReplayAnyOrder(id: u64, payload: bytes, cap: nat, order: seq<nat>)
    requires cap > 0 && Fragments(id, payload, cap).Ok?
    requires forall j :: 0 <= j < |order| ==> order[j] < |Pieces(payload, cap)|
    ensures var frames := Fragments(id, payload, cap).value;
            var pieces := Pieces(payload, cap);
            var s := S.NewSeries(id);
            var m := Progress(order, 0);
            && m <= |pieces|
            && Collected(s, frames, order) == Concat(pieces[..m])
            && (m == |pieces| ==> Collected(s, frames, order) == payload)
            && S.Completions(S.Answers(s, Headers(frames, order))) == if m == |pieces| then 1 else 0
  {
    var pieces := Pieces(payload, cap);
    var frames := Tagged(id, pieces);
    ReplayFrom(id, pieces, order, 0);
    assert [] + Collected(S.NewSeries(id), frames, order) == Collected(S.NewSeries(id), frames, order);
    PiecesCover(payload, cap);
    assert pieces[..|pieces|] == pieces;
    S.CompletesOnce(S.NewSeries(id), Headers(frames, order));
  }

  /** Every fragment is new or a repetition of one already delivered. */
  predicate NoGaps(order: seq<nat>, k: nat) {
    order != [] ==> order[0] <= k && NoGaps(order[1..], if order[0] == k then k + 1 else k)
  }

  /** A gap-free order that ends with the last of `n` fragments delivers them all. */
  lemma {:induction false} GapFreeDeliversAll(order: seq<nat>, k: nat, n: nat)
    requires k < n && NoGaps(order, k)
    requires forall j :: 0 <= j < |order| ==> order[j] < n
    requires order != [] && order[|order| - 1] == n - 1
    ensures Progress(order, k) == n
    decreases order
  {
    var k' := if order[0] == k then k + 1 else k;
    if k' == n {
      ProgressTop(order[1..], n);
    } else {
      assert |order| > 1;
      assert order[1..][|order| - 2] == order[|order| - 1];
      GapFreeDeliversAll(order[1..], k', n);
    }
  }

  // ---------------------------------------------------------------- the adapter

  datatype AdapterError = Decode(cause: Bincode.DecodeError) | Reassembly(failure: R.ReassemblyError)

  /** One inbound packet: fragments go to the reassembler, everything else passes through. */
  ghost function Receive(l: R.Limits, m: R.Partials, p: Envelope, now: nat)
    : (R.Partials, Result<Option<Envelope>, AdapterError>)
  {
    match DecodeFragmentPayload(p.payload)
    case Err(e) => (m, Err(Decode(e)))
    case Ok(None) => (m, Ok(Some(p)))
    case Ok(Some((h, body))) =>
      var (m', r) := R.Push(l, m, h, body, now);
      match r
      case Err(e) => (m', Err(Reassembly(e)))
      case Ok(None) => (m', Ok(None))
      case Ok(Some(message)) => (m', Ok(Some(p.(payload := message.payload))))
  }

  type Answer = Result<Option<Envelope>, AdapterError>

  /** A receiver: its state, a packet and the time, to the new state and the answer. */
  type Receiver = (R.Partials, Envelope, nat) -> (R.Partials, Answer)

  ghost function Adapter(l: R.Limits): Receiver {
    (m: R.Partials, p: Envelope, now: nat) => Receive(l, m, p, now)
  }

  /** The answers to a sequence of packets, the i-th of them arriving at `times[i]`. */
  ghost function ReceiveAll(step: Receiver, m: R.Partials, ps: seq<Envelope>, times: seq<nat>)
    : (R.Partials, seq<Answer>)
    requires |times| == |ps|
    decreases ps
  {
    if ps == [] then (m, [])
    else
      var (m1, r) := step(m, ps[0], times[0]);
      var (m2, rs) := ReceiveAll(step, m1, ps[1..], times[1..]);
      (m2, [r] + rs)
  }

  /** A marked packet that embeds nothing is an error and changes nothing. */
  lemma MalformedIsRefused(l: R.Limits, m: R.Partials, p: Envelope, now: nat)
    requires |p.payload| >= 6 && MAGIC <= p.payload
    requires forall hb, h, body :: !Embeds(p.payload, hb, h, body)
    ensures Receive(l, m, p, now).0 == m
    ensures Receive(l, m, p, now).1.Err? && Receive(l, m, p, now).1.error.Decode?
  {
    var r := DecodeFragmentPayload(p.payload);
    DecodesExactly(p.payload, FragmentHeader(0, 0, false), []);
    if r.Ok? && r.value.Some? {
      DecodesExactly(p.payload, r.value.value.0, r.value.value.1);
    }
  }

  /** A packet that embeds a fragment is answered as the fragment is, with its own envelope around a whole message. */
  lemma FragmentIsPushed(l: R.Limits, m: R.Partials, p: Envelope, h: FragmentHeader, body: bytes, now: nat)
    requires p.payload == FragmentPayload(h, body)
    ensures var (m', out) := R.Push(l, m, h, body, now);
            && Receive(l, m, p, now).0 == m'
            && Receive(l, m, p, now).1
               == if out.Err? then Err(Reassembly(out.error))
                  else if out.value.None? then Ok(None)
                  else Ok(Some(Envelope(p.id, p.correlationId, out.value.value.payload)))
  {
    FragmentPayloadRoundTrip(h, body);
  }

  /** Small packets travel unmarked: one comes back as it was exactly when it carries no marker. */
  lemma PassThrough(l: R.Limits, m: R.Partials, p: Envelope, now: nat)
    ensures Receive(l, m, p, now) == (m, Ok(Some(p))) <==> DecodeFragmentPayload(p.payload) == Ok(None)
  {
  }

  /** A packet that fits travels as it is and comes back as it was, provided it does not look like a fragment. */
  lemma {:induction false} SmallPacketRoundTrip(l: R.Limits, m: R.Partials, p: Envelope, id: u64, cap: nat, now: nat)
    requires cap > 0 && |p.payload| <= cap
    ensures PacketFragments(id, p, cap) == Ok([p])
    ensures ReceiveAll(Adapter(l), m, [p], [now]) == (m, [Ok(Some(p))]) <==> |p.payload| < 6 || !(MAGIC <= p.payload)
  {
    SmallPacketsUnmarked(id, p, cap);
    PassThrough(l, m, p, now);
    DecodesExactly(p.payload, FragmentHeader(0, 0, false), []);
    ReceiveOne(Adapter(l), m, p, now);
  }

  lemma {:induction false} ReceiveOne(step: Receiver, m: R.Partials, p: Envelope, now: nat)
    ensures ReceiveAll(step, m, [p], [now]) == (step(m, p, now).0, [step(m, p, now).1])
  {
    var (m1, r) := step(m, p, now);
    assert ReceiveAll(step, m1, [], []) == (m1, []);
    assert [r] + [] == [r];
  }

  /** The reassembler could take the whole payload now, on top of everything it holds. */
  ghost predicate Room(l: R.Limits, m: R.Partials, size: nat) {
    && size <= l.maxMessageSize
    && (l.maxPartials.Some? ==> |m| + 1 <= l.maxPartials.value)
    && (l.maxBuffered.Some? ==> R.Total(m) + size <= l.maxBuffered.value)
    && R.Total(m) + size <= USIZE_MAX
  }

  /** `m` is what is left of `m0`, plus the message in progress with `k` fragments taken. */
  ghost predicate InProgress(m0: R.Partials, m: R.Partials, id: u64, pieces: seq<bytes>, k: nat, t0: nat) {
    && 0 < k < |pieces| <= MAX_FRAGMENTS
    && id in m && m[id] == R.Partial(S.Series(id, k, false), Concat(pieces[..k]), t0)
    && (m - {id}).Keys <= m0.Keys && forall j :: j in m && j != id ==> m[j] == m0[j]
  }

  /** The packet carrying fragment `i` of a message. */
  function Packet(p: Envelope, id: u64, pieces: seq<bytes>, i: nat): Envelope
    requires i < |pieces| <= MAX_FRAGMENTS
  {
    p.(payload := FragmentPayload(FragmentHeader(id, i, i == |pieces| - 1), pieces[i]))
  }

  /** The packets of a message by fragment number. */
  function Carrier(p: Envelope, id: u64, pieces: seq<bytes>): nat -> Envelope
    requires |pieces| <= MAX_FRAGMENTS
  {
    (i: nat) => if i < |pieces| then Packet(p, id, pieces, i) else p
  }

  /** Packets of one message in a delivery order. */
  function Packets(carry: nat -> Envelope, order: seq<nat>): (ps: seq<Envelope>)
    ensures |ps| == |order|
  {
    if order == [] then [] else [carry(order[0])] + Packets(carry, order[1..])
  }

  /** `m` holds nothing but entries of `m0`. */
  ghost predicate PartOf(m: R.Partials, m0: R.Partials) {
    m.Keys <= m0.Keys && forall k :: k in m ==> m[k] == m0[k]
  }

  /** Nothing of this message is older than the timeout at `now`. */
  predicate Fresh(l: R.Limits, t0: nat, now: nat) {
    (if now < t0 then 0 else now - t0) < l.timeout
  }

  /** What other messages hold, plus this one so far, is within what there was room for. */
  lemma HeldBound(m0: R.Partials, m: R.Partials, id: u64)
    requires id in m && PartOf(m - {id}, m0)
    ensures R.Total(m) <= R.Total(m0) + |m[id].buffer|
  {
    R.TotalInsert(m, id, m[id]);
    MapSum.SumSubset(R.Sizes(m0), R.Sizes(m - {id}));
  }

  lemma {:induction false} RoomForNext(l: R.Limits, m0: R.Partials, live: R.Partials, id: u64,
                                       pieces: seq<bytes>, k: nat, t0: nat)
    requires InProgress(m0, live, id, pieces, k, t0) && id !in m0
    requires Room(l, m0, |Concat(pieces)|)
    ensures live[id].buffer + pieces[k] == Concat(pieces[..k + 1])
    ensures |live[id].buffer| + |pieces[k]| <= |Concat(pieces)|
    ensures R.AddBytes(l, R.Total(live), |pieces[k]|).Ok?
  {
    HeldBound(m0, live, id);
    assert pieces[..k] + [pieces[k]] == pieces[..k + 1];
    ConcatAppend(pieces[..k], pieces[k]);
    ConcatPrefix(pieces, k + 1);
  }

  lemma PushInTurn(l: R.Limits, live: R.Partials, id: u64, k: nat, last: bool, body: bytes)
    requires k < MAX_FRAGMENTS && id in live && live[id].series == S.Series(id, k, false) && (k == U32_MAX ==> last)
    requires |live[id].buffer| + |body| <= l.maxMessageSize && R.AddBytes(l, R.Total(live), |body|).Ok?
    ensures R.PushExisting(l, live, FragmentHeader(id, k, last), body)
         == if last then (live - {id}, Ok(Some(R.Message(id, live[id].buffer + body))))
            else (live[id := R.Partial(S.Series(id, k + 1, false), live[id].buffer + body, live[id].startedAt)],
                  Ok(None))
  {
  }

  /** The next fragment in turn extends the message, or completes it. */
  lemma {:induction false} TakeNext(l: R.Limits, m0: R.Partials, m: R.Partials, id: u64,
                                    pieces: seq<bytes>, k: nat, t0: nat, now: nat)
    requires InProgress(m0, m, id, pieces, k, t0) && id !in m0
    requires Room(l, m0, |Concat(pieces)|) && Fresh(l, t0, now)
    ensures var (m', r) := R.Push(l, m, FragmentHeader(id, k, k == |pieces| - 1), pieces[k], now);
            if k + 1 < |pieces| then InProgress(m0, m', id, pieces, k + 1, t0) && r == Ok(None)
            else PartOf(m', m0) && r == Ok(Some(R.Message(id, Concat(pieces))))
  {
    var live := R.Live(l, m, now);
    RoomForNext(l, m0, live, id, pieces, k, t0);
    PushInTurn(l, live, id, k, k == |pieces| - 1, pieces[k]);
    assert k + 1 == |pieces| ==> pieces[..k + 1] == pieces;
  }

  lemma TakeAgain(l: R.Limits, m0: R.Partials, m: R.Partials, id: u64,
                  pieces: seq<bytes>, k: nat, t0: nat, i: nat, now: nat)
    requires InProgress(m0, m, id, pieces, k, t0) && i < k && Fresh(l, t0, now)
    ensures var (m', r) := R.Push(l, m, FragmentHeader(id, i, false), pieces[i], now);
            InProgress(m0, m', id, pieces, k, t0) && r == Ok(None)
  {
  }

  lemma {:induction false} TakeFirst(l: R.Limits, m0: R.Partials, id: u64, pieces: seq<bytes>, now: nat)
    requires id !in m0 && 1 < |pieces| <= MAX_FRAGMENTS
    requires Room(l, m0, |Concat(pieces)|)
    ensures var (m', r) := R.Push(l, m0, FragmentHeader(id, 0, false), pieces[0], now);
            InProgress(m0, m', id, pieces, 1, now) && r == Ok(None)
  {
    var live := R.Live(l, m0, now);
    R.SmallerMap(live, m0);
    MapSum.SumSubset(R.Sizes(m0), R.Sizes(live));
    ConcatPrefix(pieces, 1);
    assert pieces[..1] == [] + [pieces[0]];
    ConcatAppend([], pieces[0]);
    assert [] + pieces[0] == pieces[0];
  }

  /** One more packet of a message in progress: new and in turn, or a repetition. */
  lemma {:induction false} NextPacket(l: R.Limits, m0: R.Partials, m: R.Partials, p: Envelope, id: u64,
                   pieces: seq<bytes>, k: nat, t0: nat, i: nat, now: nat)
    requires InProgress(m0, m, id, pieces, k, t0) && id !in m0
    requires Room(l, m0, |Concat(pieces)|) && Fresh(l, t0, now) && i <= k
    ensures var (m', r) := Receive(l, m, Packet(p, id, pieces, i), now);
            if i == k && k + 1 == |pieces| then PartOf(m', m0) && r == Ok(Some(p.(payload := Concat(pieces))))
            else InProgress(m0, m', id, pieces, if i == k then k + 1 else k, t0) && r == Ok(None)
  {
    FragmentPayloadRoundTrip(FragmentHeader(id, i, i == |pieces| - 1), pieces[i]);
    if i == k {
      TakeNext(l, m0, m, id, pieces, k, t0, now);
    } else {
      TakeAgain(l, m0, m, id, pieces, k, t0, i, now);
    }
  }

  /** A delivery order that completes exactly at its end. */
  predicate CompletesAtEnd(order: seq<nat>, k: nat, n: nat) {
    && order != [] && NoGaps(order, k)
    && order[|order| - 1] == n - 1
    && forall j :: 0 <= j < |order| - 1 ==> order[j] < n - 1
  }

  lemma CompletesLater(order: seq<nat>, k: nat, n: nat)
    requires CompletesAtEnd(order, k, n) && k < n && |order| > 1
    ensures CompletesAtEnd(order[1..], if order[0] == k then k + 1 else k, n)
  {
    assert order[1..][|order| - 2] == order[|order| - 1];
  }

  /** Silence until the last answer, which is the packet. */
  predicate AnswersWith(rs: seq<Answer>, p: Envelope) {
    && |rs| > 0 && rs[|rs| - 1] == Ok(Some(p))
    && forall j :: 0 <= j < |rs| - 1 ==> rs[j] == Ok(None)
  }

  /** The receiver treats packet `i` of a message in progress as `NextPacket` says. */
  ghost predicate FollowsAt(step: Receiver, carry: nat -> Envelope, whole: Envelope, l: R.Limits, m0: R.Partials,
                            id: u64, pieces: seq<bytes>, t0: nat, m: R.Partials, k: nat, i: nat, now: nat)
  {
    InProgress(m0, m, id, pieces, k, t0) && i <= k && Fresh(l, t0, now) ==>
      var (m', r) := step(m, carry(i), now);
      if i == k && k + 1 == |pieces| then PartOf(m', m0) && r == Ok(Some(whole))
      else InProgress(m0, m', id, pieces, if i == k then k + 1 else k, t0) && r == Ok(None)
  }

  ghost predicate Follows(step: Receiver, carry: nat -> Envelope, whole: Envelope, l: R.Limits, m0: R.Partials,
                          id: u64, pieces: seq<bytes>, t0: nat)
  {
    forall m: R.Partials, k: nat, i: nat, now: nat ::
      FollowsAt(step, carry, whole, l, m0, id, pieces, t0, m, k, i, now)
  }

  lemma {:induction false} DeliverRest(step: Receiver, carry: nat -> Envelope, whole: Envelope, l: R.Limits,
                                       m0: R.Partials, m: R.Partials, id: u64, pieces: seq<bytes>, k: nat, t0: nat,
                                       order: seq<nat>, times: seq<nat>)
    requires Follows(step, carry, whole, l, m0, id, pieces, t0)
    requires InProgress(m0, m, id, pieces, k, t0)
    requires CompletesAtEnd(order, k, |pieces|) && |times| == |order|
    requires forall j :: 0 <= j < |times| ==> Fresh(l, t0, times[j])
    ensures var (m', rs) := ReceiveAll(step, m, Packets(carry, order), times);
            PartOf(m', m0) && |rs| == |order| && AnswersWith(rs, whole)
    decreases order
  {
    var ps := Packets(carry, order);
    assert FollowsAt(step, carry, whole, l, m0, id, pieces, t0, m, k, order[0], times[0]);
    var (m1, r) := step(m, ps[0], times[0]);
    if |order| == 1 {
      assert ReceiveAll(step, m1, ps[1..], times[1..]) == (m1, []);
    } else {
      CompletesLater(order, k, |pieces|);
      var k' := if order[0] == k then k + 1 else k;
      DeliverRest(step, carry, whole, l, m0, m1, id, pieces, k', t0, order[1..], times[1..]);
      assert ps[1..] == Packets(carry, order[1..]);
    }
  }

  lemma {:induction false} DeliverAll(step: Receiver, carry: nat -> Envelope, whole: Envelope, l: R.Limits,
                                      m0: R.Partials, m: R.Partials, id: u64, pieces: seq<bytes>,
                                      order: seq<nat>, times: seq<nat>)
    requires 1 < |pieces| && CompletesAtEnd(order, 0, |pieces|) && |times| == |order|
    requires Follows(step, carry, whole, l, m0, id, pieces, times[0])
    requires var (m1, r) := step(m, carry(0), times[0]); r == Ok(None) && InProgress(m0, m1, id, pieces, 1, times[0])
    requires forall j :: 0 <= j < |times| ==> Fresh(l, times[0], times[j])
    ensures var (m', rs) := ReceiveAll(step, m, Packets(carry, order), times);
            PartOf(m', m0) && |rs| == |order| && AnswersWith(rs, whole)
  {
    var ps := Packets(carry, order);
    var m1 := step(m, carry(0), times[0]).0;
    assert order[0] == 0 && |order| > 1;
    CompletesLater(order, 0, |pieces|);
    DeliverRest(step, carry, whole, l, m0, m1, id, pieces, 1, times[0], order[1..], times[1..]);
    assert ps[1..] == Packets(carry, order[1..]);
  }

  lemma {:induction false} AdapterFollows(l: R.Limits, m0: R.Partials, p: Envelope, id: u64,
                                          pieces: seq<bytes>, t0: nat)
    requires id !in m0 && |pieces| <= MAX_FRAGMENTS && Room(l, m0, |Concat(pieces)|)
    ensures Follows(Adapter(l), Carrier(p, id, pieces), p.(payload := Concat(pieces)), l, m0, id, pieces, t0)
  {
    forall m: R.Partials, k: nat, i: nat, now: nat
      ensures FollowsAt(Adapter(l), Carrier(p, id, pieces), p.(payload := Concat(pieces)),
                        l, m0, id, pieces, t0, m, k, i, now)
    {
      AdapterFollowsAt(l, m0, p, id, pieces, t0, m, k, i, now);
    }
  }

  lemma {:induction false} AdapterFollowsAt(l: R.Limits, m0: R.Partials, p: Envelope, id: u64,
                                            pieces: seq<bytes>, t0: nat, m: R.Partials, k: nat, i: nat, now: nat)
    requires id !in m0 && |pieces| <= MAX_FRAGMENTS && Room(l, m0, |Concat(pieces)|)
    ensures FollowsAt(Adapter(l), Carrier(p, id, pieces), p.(payload := Concat(pieces)),
                        l, m0, id, pieces, t0, m, k, i, now)
  {
    if InProgress(m0, m, id, pieces, k, t0) && i <= k && Fresh(l, t0, now) {
      NextPacket(l, m0, m, p, id, pieces, k, t0, i, now);
    }
  }

  lemma {:induction false} FirstPacket(l: R.Limits, m: R.Partials, p: Envelope, id: u64, pieces: seq<bytes>, now: nat)
    requires 1 < |pieces| <= MAX_FRAGMENTS
    requires var live := R.Live(l, m, now); id !in live && Room(l, live, |Concat(pieces)|)
    ensures var (m', r) := Adapter(l)(m, Carrier(p, id, pieces)(0), now);
            InProgress(R.Live(l, m, now), m', id, pieces, 1, now) && r == Ok(None)
  {
    FragmentPayloadRoundTrip(FragmentHeader(id, 0, false), pieces[0]);
    PushLive(l, m, FragmentHeader(id, 0, false), pieces[0], now);
    TakeFirst(l, R.Live(l, m, now), id, pieces, now);
  }

  lemma PushLive(l: R.Limits, m: R.Partials, h: FragmentHeader, body: bytes, now: nat)
    ensures R.Push(l, R.Live(l, m, now), h, body, now) == R.Push(l, m, h, body, now)
  {
    assert R.Live(l, R.Live(l, m, now), now) == R.Live(l, m, now);
  }

  /**
    Round trip through the wire: a packet that needs several fragments, delivered in turn with
    any repetitions before the last fragment, into a reassembler whose unexpired messages leave
    room and do not use its identifier, produces nothing until the last fragment and then the
    packet itself.
   */
  lemma {:induction false} PacketRoundTrip(l: R.Limits, m: R.Partials, p: Envelope, id: u64, cap: nat,
                                           order: seq<nat>, times: seq<nat>)
    requires cap > 0 && PacketFragments(id, p, cap).Ok? && |p.payload| > cap
    requires CompletesAtEnd(order, 0, |Pieces(p.payload, cap)|) && |times| == |order|
    requires var live := R.Live(l, m, times[0]); id !in live && Room(l, live, |p.payload|)
    requires forall j :: 0 <= j < |times| ==> Fresh(l, times[0], times[j])
    ensures var sent := PacketFragments(id, p, cap).value;
            && (forall j :: 0 <= j < |order| ==> order[j] < |sent|)
            && var (m', rs) := ReceiveAll(Adapter(l), m, Chosen(sent, order), times);
               PartOf(m', R.Live(l, m, times[0])) && |rs| == |order| && AnswersWith(rs, p)
  {
    var pieces := Pieces(p.payload, cap);
    var live := R.Live(l, m, times[0]);
    PiecesCover(p.payload, cap);
    PacketsAre(p, id, pieces, order);
    AdapterFollows(l, live, p, id, pieces, times[0]);
    FirstPacket(l, m, p, id, pieces, times[0]);
    DeliverAll(Adapter(l), Carrier(p, id, pieces), p, l, live, m, id, pieces, order, times);
  }

  function Chosen(sent: seq<Envelope>, order: seq<nat>): (ps: seq<Envelope>)
    requires forall j :: 0 <= j < |order| ==> order[j] < |sent|
    ensures |ps| == |order|
  {
    seq(|order|, j requires 0 <= j < |order| => sent[order[j]])
  }

  lemma {:induction false} PacketsAre(p: Envelope, id: u64, pieces: seq<bytes>, order: seq<nat>)
    requires |pieces| <= MAX_FRAGMENTS
    requires forall j :: 0 <= j < |order| ==> order[j] < |pieces|
    ensures Packets(Carrier(p, id, pieces), order) == Chosen(Embedded(p, Tagged(id, pieces)), order)
    decreases order
  {
    if order != [] {
      PacketsAre(p, id, pieces, order[1..]);
    }
  }
}
