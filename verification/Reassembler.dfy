/** Rebuilding messages from fragments, with limits, exact accounting and timeouts. */
module Reassembler {
  import opened Base
  import opened FragmentWire
  import opened MapSum
  import S = FragmentSeries

  datatype Partial = Partial(series: S.Series, buffer: bytes, startedAt: nat)

  type Partials = map<u64, Partial>

  datatype Limits = Limits(maxMessageSize: usize, maxPartials: Option<usize>, maxBuffered: Option<usize>, timeout: nat)

  datatype ReassemblyError =
    | Fragment(cause: S.SeriesError)
    | MessageTooLarge(messageId: u64, attempted: nat)
    | TooManyConcurrentPartials(attempted: nat)
    | AggregateBufferCapExceeded(attempted: nat)

  datatype Message = Message(messageId: u64, payload: bytes)

  type Outcome = Result<Option<Message>, ReassemblyError>

  predicate Expired(l: Limits, p: Partial, now: nat) {
    (if now < p.startedAt then 0 else now - p.startedAt) >= l.timeout
  }

  function Live(l: Limits, m: Partials, now: nat): Partials {
    map k | k in m && !Expired(l, m[k], now) :: m[k]
  }

  function Sizes(m: Partials): map<u64, nat> {
    map k | k in m :: |m[k].buffer|
  }

  ghost function Total(m: Partials): nat { Sum(Sizes(m)) }

  /** The aggregate check against a current total. */
  function AddBytes(l: Limits, total: nat, additional: nat): Result<nat, ReassemblyError> {
    if total + additional > USIZE_MAX then Err(AggregateBufferCapExceeded(USIZE_MAX))
    else if l.maxBuffered.Some? && total + additional > l.maxBuffered.value then
      Err(AggregateBufferCapExceeded(total + additional))
    else Ok(total + additional)
  }

  /** A first fragment: numbered zero, within limits, and retained only if more will follow. */
  ghost function PushFirst(l: Limits, m: Partials, h: FragmentHeader, body: bytes, now: nat): (Partials, Outcome) {
    if h.index != 0 then (m, Err(Fragment(S.IndexMismatch(0, h.index))))
    else if |body| > l.maxMessageSize then (m, Err(MessageTooLarge(h.messageId, |body|)))
    else if h.isLast then (m, Ok(Some(Message(h.messageId, body))))
    else if l.maxPartials.Some? && |m| + 1 > l.maxPartials.value then
      (m, Err(TooManyConcurrentPartials(|m| + 1)))
    else
      match AddBytes(l, Total(m), |body|)
      case Err(e) => (m, Err(e))
      case Ok(_) => (m[h.messageId := Partial(S.Series(h.messageId, 1, false), body, now)], Ok(None))
  }

  /** A fragment already accepted by its series: limits first, then the bytes. */
  ghost function Append(l: Limits, m: Partials, id: u64, series: S.Series, body: bytes, completes: bool)
    : (Partials, Outcome)
    requires id in m
  {
    var size := |m[id].buffer| + |body|;
    if size > USIZE_MAX then (m - {id}, Err(MessageTooLarge(id, USIZE_MAX)))
    else if size > l.maxMessageSize then (m - {id}, Err(MessageTooLarge(id, size)))
    else
      match AddBytes(l, Total(m), |body|)
      case Err(e) => (m - {id}, Err(e))
      case Ok(_) =>
        if completes then (m - {id}, Ok(Some(Message(id, m[id].buffer + body))))
        else (m[id := Partial(series, m[id].buffer + body, m[id].startedAt)], Ok(None))
  }

  ghost function PushExisting(l: Limits, m: Partials, h: FragmentHeader, body: bytes): (Partials, Outcome)
    requires h.messageId in m
  {
    var (series, r) := S.Accept(m[h.messageId].series, h);
    match r
    case Ok(Duplicate) => (m, Ok(None))
    case Ok(Incomplete) => Append(l, m, h.messageId, series, body, false)
    case Ok(Complete) => Append(l, m, h.messageId, series, body, true)
    case Err(e) => (m - {h.messageId}, Err(Fragment(e)))
  }

  /** One fragment: expired partials go first, then the fragment is matched to its message. */
  ghost function Push(l: Limits, m: Partials, h: FragmentHeader, body: bytes, now: nat): (Partials, Outcome) {
    var live := Live(l, m, now);
    if h.messageId in live then PushExisting(l, live, h, body) else PushFirst(l, live, h, body, now)
  }

  // ---------------------------------------------------------------- invariants

  /** Every limit is respected by what is retained. */
  ghost predicate Bounded(l: Limits, m: Partials) {
    && (forall k :: k in m ==>
          && m[k].series.messageId == k && !m[k].series.complete
          && |m[k].buffer| <= l.maxMessageSize)
    && (l.maxPartials.Some? ==> |m| <= l.maxPartials.value)
    && (l.maxBuffered.Some? ==> Total(m) <= l.maxBuffered.value)
    && Total(m) <= USIZE_MAX
  }

  lemma SmallerMap<K, V>(a: map<K, V>, b: map<K, V>)
    requires a.Keys <= b.Keys
    ensures |a| <= |b|
  {
    SmallerSet(a.Keys, b.Keys);
  }

  lemma SmallerSet<K>(a: set<K>, b: set<K>)
    requires a <= b
    ensures |a| <= |b|
  {
    if a != {} {
      var k :| k in a;
      SmallerSet(a - {k}, b - {k});
    }
  }

  /** Dropping partials keeps every bound. */
  lemma PartBounded(l: Limits, m: Partials, part: Partials)
    requires Bounded(l, m)
    requires part.Keys <= m.Keys && forall k :: k in part ==> part[k] == m[k]
    ensures Bounded(l, part) && Total(part) <= Total(m)
  {
    SmallerMap(part, m);
    SumSubset(Sizes(m), Sizes(part));
  }

  lemma TotalInsert(m: Partials, id: u64, p: Partial)
    ensures Total(m[id := p]) == Total(m - {id}) + |p.buffer|
    ensures id in m ==> Total(m) == Total(m - {id}) + |m[id].buffer|
  {
    SumInsert(Sizes(m), id, |p.buffer|);
    assert Sizes(m[id := p]) == Sizes(m)[id := |p.buffer|];
    assert Sizes(m - {id}) == Sizes(m) - {id};
    if id in m {
      SumRemove(Sizes(m), id);
    }
  }

  lemma TotalAdd(m: Partials, id: u64, p: Partial)
    requires id !in m
    ensures Total(m[id := p]) == Total(m) + |p.buffer| && |m[id := p]| == |m| + 1
  {
    TotalInsert(m, id, p);
    assert m - {id} == m;
    assert m[id := p].Keys == m.Keys + {id};
  }

  lemma PushFirstBounded(l: Limits, m: Partials, h: FragmentHeader, body: bytes, now: nat)
    requires Bounded(l, m) && h.messageId !in m
    ensures Bounded(l, PushFirst(l, m, h, body, now).0)
  {
    var p := Partial(S.Series(h.messageId, 1, false), body, now);
    TotalAdd(m, h.messageId, p);
  }

  lemma AppendBounded(l: Limits, m: Partials, id: u64, series: S.Series, body: bytes, completes: bool)
    requires Bounded(l, m) && id in m
    requires series.messageId == id && (!completes ==> !series.complete)
    ensures Bounded(l, Append(l, m, id, series, body, completes).0)
  {
    PartBounded(l, m, m - {id});
    var p := Partial(series, m[id].buffer + body, m[id].startedAt);
    TotalInsert(m, id, p);
    assert m[id := p].Keys == m.Keys;
  }

  /** Every push, accepted or refused, keeps the memory bounds. */
  lemma PushBounded(l: Limits, m: Partials, h: FragmentHeader, body: bytes, now: nat)
    requires Bounded(l, m)
    ensures Bounded(l, Push(l, m, h, body, now).0)
  {
    var live := Live(l, m, now);
    PartBounded(l, m, live);
    var id := h.messageId;
    if id in live {
      var (series, r) := S.Accept(live[id].series, h);
      if r.Ok? && !r.value.Duplicate? {
        AppendBounded(l, live, id, series, body, r.value.Complete?);
      } else {
        PartBounded(l, live, live - {id});
      }
    } else {
      PushFirstBounded(l, live, h, body, now);
    }
  }

  // ---------------------------------------------------------------- the object

  class MessageReassembler {
    const limits: Limits
    var buffers: Partials
    var bufferedBytes: nat

    /** The running counter is exactly the bytes retained. */
    ghost predicate Valid()
      reads this
    {
      Bounded(limits, buffers) && bufferedBytes == Total(buffers)
    }

    constructor (l: Limits)
      ensures limits == l && buffers == map[] && Valid()
    {
      limits := l;
      buffers := map[];
      bufferedBytes := 0;
    }

    method Release(id: u64)
      requires id in buffers && bufferedBytes == Total(buffers)
      modifies this
      ensures buffers == old(buffers) - {id} && bufferedBytes == Total(buffers)
    {
      TotalInsert(buffers, id, buffers[id]);
      bufferedBytes := bufferedBytes - |buffers[id].buffer|;
      buffers := buffers - {id};
    }

    method PurgeExpiredAt(now: nat) returns (evicted: set<u64>)
      requires Valid()
      modifies this
      ensures Valid() && buffers == Live(limits, old(buffers), now)
      ensures evicted == old(buffers).Keys - buffers.Keys
    {
      evicted := {};
      var todo := buffers.Keys;
      while todo != {}
        invariant todo <= buffers.Keys
        invariant buffers == map k | k in old(buffers) && (k in todo || !Expired(limits, old(buffers)[k], now))
                               :: old(buffers)[k]
        invariant bufferedBytes == Total(buffers)
        invariant evicted == old(buffers).Keys - buffers.Keys
        decreases todo
      {
        var id :| id in todo;
        todo := todo - {id};
        if Expired(limits, buffers[id], now) {
          evicted := evicted + {id};
          Release(id);
        }
      }
      PartBounded(limits, old(buffers), buffers);
    }

    method PushAt(h: FragmentHeader, body: bytes, now: nat) returns (r: Outcome)
      requires Valid()
      modifies this
      ensures Valid() && (buffers, r) == Push(limits, old(buffers), h, body, now)
    {
      PushBounded(limits, buffers, h, body, now);
      var evicted := PurgeExpiredAt(now);
      if h.messageId in buffers {
        var (series, status) := S.Accept(buffers[h.messageId].series, h);
        match status {
          case Ok(Duplicate) =>
            return Ok(None);
          case Err(e) =>
            Release(h.messageId);
            return Err(Fragment(e));
          case Ok(taken) =>
            r := AppendAndMaybeComplete(h.messageId, series, body, taken.Complete?);
        }
      } else {
        r := RegisterFirst(h, body, now);
      }
    }

    method RegisterFirst(h: FragmentHeader, body: bytes, now: nat) returns (r: Outcome)
      requires bufferedBytes == Total(buffers) && h.messageId !in buffers
      modifies this
      ensures bufferedBytes == Total(buffers)
      ensures (buffers, r) == PushFirst(limits, old(buffers), h, body, now)
    {
      if h.index != 0 {
        return Err(Fragment(S.IndexMismatch(0, h.index)));
      }
      if |body| > limits.maxMessageSize {
        return Err(MessageTooLarge(h.messageId, |body|));
      }
      if h.isLast {
        return Ok(Some(Message(h.messageId, body)));
      }
      if limits.maxPartials.Some? && |buffers| + 1 > limits.maxPartials.value {
        return Err(TooManyConcurrentPartials(|buffers| + 1));
      }
      var added := AddBytes(limits, bufferedBytes, |body|);
      if added.Err? {
        return Err(added.error);
      }
      var p := Partial(S.Series(h.messageId, 1, false), body, now);
      TotalAdd(buffers, h.messageId, p);
      bufferedBytes := added.value;
      buffers := buffers[h.messageId := p];
      return Ok(None);
    }

    method AppendAndMaybeComplete(id: u64, series: S.Series, body: bytes, completes: bool) returns (r: Outcome)
      requires bufferedBytes == Total(buffers) && id in buffers
      modifies this
      ensures bufferedBytes == Total(buffers)
      ensures (buffers, r) == Append(limits, old(buffers), id, series, body, completes)
    {
      var size := |buffers[id].buffer| + |body|;
      if size > USIZE_MAX {
        Release(id);
        return Err(MessageTooLarge(id, USIZE_MAX));
      }
      if size > limits.maxMessageSize {
        Release(id);
        return Err(MessageTooLarge(id, size));
      }
      var added := AddBytes(limits, bufferedBytes, |body|);
      if added.Err? {
        Release(id);
        return Err(added.error);
      }
      var p := Partial(series, buffers[id].buffer + body, buffers[id].startedAt);
      TotalInsert(buffers, id, p);
      bufferedBytes := added.value;
      buffers := buffers[id := p];
      if completes {
        assert buffers - {id} == old(buffers) - {id};
        Release(id);
        return Ok(Some(Message(id, p.buffer)));
      }
      return Ok(None);
    }
  }
}
