/** Splitting a payload into numbered fragments, and a packet into fragment packets. */
module Fragmenter {
  import opened Base
  import opened FragmentWire

  datatype FragmentFrame = FragmentFrame(header: FragmentHeader, payload: bytes)

  datatype FragmentationError = IndexOverflow(last: u32)

  const MAX_FRAGMENTS: nat := 0x1_0000_0000

  /** Chunks of `cap` bytes and a last one of at most `cap`; an empty payload is one empty chunk. */
  function Pieces(payload: bytes, cap: nat): (ps: seq<bytes>)
    requires cap > 0
    ensures |ps| >= 1
    decreases |payload|
  {
    if |payload| <= cap then [payload] else [payload[..cap]] + Pieces(payload[cap..], cap)
  }

  /** Chunks numbered from zero, the last one marked. */
  function Tagged(id: u64, pieces: seq<bytes>): seq<FragmentFrame>
    requires |pieces| <= MAX_FRAGMENTS
  {
    seq(|pieces|, i requires 0 <= i < |pieces| =>
      FragmentFrame(FragmentHeader(id, i, i == |pieces| - 1), pieces[i]))
  }

  function Fragments(id: u64, payload: bytes, cap: nat): Result<seq<FragmentFrame>, FragmentationError>
    requires cap > 0
  {
    var pieces := Pieces(payload, cap);
    if |pieces| <= MAX_FRAGMENTS then Ok(Tagged(id, pieces)) else Err(IndexOverflow(U32_MAX))
  }

  /** A packet that fits is passed on unmarked; otherwise each fragment is embedded in a copy. */
  function PacketFragments(id: u64, p: Envelope, cap: nat): Result<seq<Envelope>, FragmentationError>
    requires cap > 0
  {
    match Fragments(id, p.payload, cap)
    case Err(e) => Err(e)
    case Ok(fs) => if |fs| == 1 then Ok([p]) else Ok(Embedded(p, fs))
  }

  function Embedded(p: Envelope, fs: seq<FragmentFrame>): seq<Envelope> {
    seq(|fs|, i requires 0 <= i < |fs| => p.(payload := FragmentPayload(fs[i].header, fs[i].payload)))
  }

  class Splitter {
    const maxFragmentSize: usize
    var nextMessageId: u64

    constructor (cap: usize, startAt: u64)
      requires cap > 0
      ensures maxFragmentSize == cap && nextMessageId == startAt
    {
      maxFragmentSize := cap;
      nextMessageId := startAt;
    }

    /** Identifiers are handed out in order; the source panics when they run out. */
    method TakeMessageId() returns (id: u64)
      requires nextMessageId < U64_MAX
      modifies this
      ensures id == old(nextMessageId) && nextMessageId == id + 1
    {
      id := nextMessageId;
      nextMessageId := nextMessageId + 1;
    }

    /** The chunking loop: one slice per turn, stopping at the slice that reaches the end. */
    method BuildFragments(id: u64, payload: bytes) returns (r: Result<seq<FragmentFrame>, FragmentationError>)
      requires maxFragmentSize > 0
      ensures r == Fragments(id, payload, maxFragmentSize)
    {
      if payload == [] {
        r := Ok([FragmentFrame(FragmentHeader(id, 0, true), [])]);
        assert Pieces(payload, maxFragmentSize) == [[]];
        assert r.value == Tagged(id, Pieces(payload, maxFragmentSize));
        return;
      }
      ghost var pieces := Pieces(payload, maxFragmentSize);
      var fragments: seq<FragmentFrame> := [];
      var offset := 0;
      var index: u32 := 0;
      while offset < |payload|
        invariant 0 <= offset < |payload| && |fragments| == index < |pieces|
        invariant pieces[index..] == Pieces(payload[offset..], maxFragmentSize)
        invariant forall k :: 0 <= k < index ==>
                    fragments[k] == FragmentFrame(FragmentHeader(id, k, false), pieces[k])
        decreases |payload| - offset
      {
        var end := if offset + maxFragmentSize < |payload| then offset + maxFragmentSize else |payload|;
        var isLast := end == |payload|;
        fragments := fragments + [FragmentFrame(FragmentHeader(id, index, isLast), payload[offset..end])];
        assert pieces[index..][0] == pieces[index] == payload[offset..end];
        if isLast {
          assert payload[offset..] == payload[offset..end];
          assert |pieces[index..]| == 1;
          assert fragments == Tagged(id, pieces);
          return Ok(fragments);
        }
        assert payload[offset..][maxFragmentSize..] == payload[end..];
        assert pieces[index..][1..] == pieces[index + 1..];
        offset := end;
        if CheckedIncrement(index).None? {
          return Err(IndexOverflow(index));
        }
        index := CheckedIncrement(index).value;
      }
      return Ok(fragments);
    }

    method FragmentPacket(p: Envelope) returns (r: Result<seq<Envelope>, FragmentationError>)
      requires maxFragmentSize > 0 && nextMessageId < U64_MAX
      modifies this
      ensures nextMessageId == old(nextMessageId) + 1
      ensures r == PacketFragments(old(nextMessageId), p, maxFragmentSize)
    {
      var id := TakeMessageId();
      var batch :- BuildFragments(id, p.payload);
      if |batch| == 1 {
        return Ok([p]);
      }
      var frames: seq<Envelope> := [];
      for i := 0 to |batch|
        invariant nextMessageId == id + 1 && frames == Embedded(p, batch)[..i]
      {
        var encoded := EncodeFragmentPayload(batch[i].header, batch[i].payload);
        frames := frames + [Envelope(p.id, p.correlationId, encoded)];
      }
      assert frames == Embedded(p, batch);
      return Ok(frames);
    }
  }

  // ---------------------------------------------------------------- what splitting produces

  /** The chunks are the payload, each within the cap and all but the last exactly at it. */
  lemma {:induction false} PiecesCover(payload: bytes, cap: nat)
    requires cap > 0
    ensures var ps := Pieces(payload, cap);
            && Concat(ps) == payload
            && (forall i :: 0 <= i < |ps| ==> |ps[i]| <= cap && (i < |ps| - 1 ==> |ps[i]| == cap))
    decreases |payload|
  {
    if |payload| <= cap {
      assert Concat([payload]) == payload + Concat([]);
    } else {
      PiecesCover(payload[cap..], cap);
      assert payload == payload[..cap] + payload[cap..];
    }
  }

  /** There are as many chunks as the length divided by the cap, rounded up, and one for nothing. */
  lemma {:induction false} PiecesCount(payload: bytes, cap: nat)
    requires cap > 0
    ensures var n := |Pieces(payload, cap)|;
            if payload == [] then n == 1 else (n - 1) * cap < |payload| <= n * cap
    decreases |payload|
  {
    if |payload| > cap {
      PiecesCount(payload[cap..], cap);
      var n := |Pieces(payload, cap)|;
      assert n == 1 + |Pieces(payload[cap..], cap)|;
      assert (n - 1) * cap == (n - 2) * cap + cap && n * cap == (n - 1) * cap + cap;
    }
  }

  /** Fragmentation fails exactly when the payload needs more than 2^32 fragments. */
  lemma FragmentsFail(id: u64, payload: bytes, cap: nat)
    requires cap > 0
    ensures Fragments(id, payload, cap).Err? <==> |payload| > MAX_FRAGMENTS * cap
  {
    PiecesCount(payload, cap);
    var n := |Pieces(payload, cap)|;
    if n <= MAX_FRAGMENTS {
      Scales(n, MAX_FRAGMENTS, cap);
    } else {
      Scales(MAX_FRAGMENTS, n - 1, cap);
    }
  }

  /** A packet goes out as it is, unmarked, exactly when its payload fits; otherwise in several packets. */
  lemma SmallPacketsUnmarked(id: u64, p: Envelope, cap: nat)
    requires cap > 0
    ensures PacketFragments(id, p, cap) == Ok([p]) <==> |p.payload| <= cap
    ensures |p.payload| > cap && PacketFragments(id, p, cap).Ok? ==> |PacketFragments(id, p, cap).value| > 1
  {
    PiecesCount(p.payload, cap);
    if |p.payload| > cap {
      assert |Pieces(p.payload, cap)| >= 2;
    }
  }
}
