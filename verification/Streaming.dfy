/** A framed reader: bytes arrive in chunks, and a decoder is drained after each arrival. */
module Streaming {
  import opened Base

  /** One decoder call: `Pending` is `Ok(None)`; `used` bytes leave the buffer with a frame. */
  datatype Decoded<+F, +E> = Pending | Broken(error: E) | Frame(frame: F, used: nat)

  /** An answer other than "need more" survives appended bytes. */
  ghost predicate Lasts<F, E>(dec: bytes -> Decoded<F, E>, a: bytes, b: bytes) {
    a <= b && !dec(a).Pending? ==> dec(b) == dec(a)
  }

  /** A frame takes some of the bytes there are. */
  ghost predicate Consumes<F, E>(dec: bytes -> Decoded<F, E>, a: bytes) {
    dec(a).Frame? ==> 0 < dec(a).used <= |a|
  }

  /** Answers last, frames consume something, and no bytes at all are never an answer. */
  ghost predicate Stable<F(!new), E(!new)>(dec: bytes -> Decoded<F, E>) {
    && (forall a, b :: Lasts(dec, a, b))
    && dec([]).Pending?
    && (forall a :: Consumes(dec, a))
  }

  /** Reader state: frames delivered so far, the first error, and the bytes still held. */
  datatype Reader<+F, +E> = Reader(frames: seq<F>, error: Option<E>, held: bytes)

  /** Call the decoder until it needs more bytes or fails; a failed reader decodes nothing more. */
  ghost function Drain<F(!new), E(!new)>(dec: bytes -> Decoded<F, E>, r: Reader<F, E>): Reader<F, E>
    requires Stable(dec)
    decreases |r.held|
  {
    if r.error.Some? then r
    else
      assert Consumes(dec, r.held);
      match dec(r.held)
      case Pending => r
      case Broken(e) => r.(error := Some(e))
      case Frame(f, n) => Drain(dec, Reader(r.frames + [f], None, r.held[n..]))
  }

  ghost function Arrive<F(!new), E(!new)>(dec: bytes -> Decoded<F, E>, r: Reader<F, E>, chunk: bytes): Reader<F, E>
    requires Stable(dec)
  {
    Drain(dec, r.(held := r.held + chunk))
  }

  ghost function ArriveAll<F(!new), E(!new)>(dec: bytes -> Decoded<F, E>, r: Reader<F, E>, chunks: seq<bytes>)
    : Reader<F, E>
    requires Stable(dec)
    decreases chunks
  {
    if chunks == [] then r else ArriveAll(dec, Arrive(dec, r, chunks[0]), chunks[1..])
  }

  /** Draining early does not change what later bytes lead to. */
  lemma {:induction false} DrainEarly<F(!new), E(!new)>(dec: bytes -> Decoded<F, E>, r: Reader<F, E>, more: bytes)
    requires Stable(dec)
    ensures Arrive(dec, Drain(dec, r), more) == Arrive(dec, r, more)
    decreases |r.held|
  {
    if r.error.None? && !dec(r.held).Pending? {
      assert Lasts(dec, r.held, r.held + more) && Consumes(dec, r.held) && Consumes(dec, r.held + more);
      if dec(r.held).Frame? {
        var n := dec(r.held).used;
        DrainEarly(dec, Reader(r.frames + [dec(r.held).frame], None, r.held[n..]), more);
        assert (r.held + more)[n..] == r.held[n..] + more;
      }
    }
  }

  lemma {:induction false} ArriveTogether<F(!new), E(!new)>(dec: bytes -> Decoded<F, E>, r: Reader<F, E>,
                                                            chunks: seq<bytes>)
    requires Stable(dec)
    ensures Drain(dec, ArriveAll(dec, r, chunks)) == Arrive(dec, r, Concat(chunks))
    decreases chunks
  {
    if chunks == [] {
      assert r.held + [] == r.held;
    } else {
      var head, tail := chunks[0], Concat(chunks[1..]);
      var grown := r.(held := r.held + head);
      calc {
        Drain(dec, ArriveAll(dec, r, chunks));
        Drain(dec, ArriveAll(dec, Arrive(dec, r, head), chunks[1..]));
        { ArriveTogether(dec, Arrive(dec, r, head), chunks[1..]); }
        Arrive(dec, Drain(dec, grown), tail);
        { DrainEarly(dec, grown, tail); }
        Arrive(dec, grown, tail);
        { assert r.held + head + tail == r.held + (head + tail); }
        Arrive(dec, r, head + tail);
      }
    }
  }

  lemma {:induction false} DrainTwice<F(!new), E(!new)>(dec: bytes -> Decoded<F, E>, r: Reader<F, E>)
    requires Stable(dec)
    ensures Drain(dec, Drain(dec, r)) == Drain(dec, r)
    decreases |r.held|
  {
    if r.error.None? && dec(r.held).Frame? {
      assert Consumes(dec, r.held);
      DrainTwice(dec, Reader(r.frames + [dec(r.held).frame], None, r.held[dec(r.held).used..]));
    }
  }

  lemma {:induction false} ArriveAllDrained<F(!new), E(!new)>(dec: bytes -> Decoded<F, E>, r: Reader<F, E>,
                                                              chunks: seq<bytes>)
    requires Stable(dec) && Drain(dec, r) == r
    ensures Drain(dec, ArriveAll(dec, r, chunks)) == ArriveAll(dec, r, chunks)
    decreases chunks
  {
    if chunks != [] {
      DrainTwice(dec, r.(held := r.held + chunks[0]));
      ArriveAllDrained(dec, Arrive(dec, r, chunks[0]), chunks[1..]);
    }
  }

  /**
    Chunk independence: however a byte stream is split into arrivals, a stable decoder yields the
    same frames, the same first error and the same leftover bytes as from a single arrival.
   */
  lemma {:induction false} ChunkIndependence<F(!new), E(!new)>(dec: bytes -> Decoded<F, E>, chunks: seq<bytes>)
    requires Stable(dec)
    ensures ArriveAll(dec, Reader([], None, []), chunks) == Arrive(dec, Reader([], None, []), Concat(chunks))
  {
    var blank := Reader([], None, []);
    ArriveTogether(dec, blank, chunks);
    ArriveAllDrained(dec, blank, chunks);
  }

  /** What a sender puts on the wire for a list of frames. */
  function Sent<F>(wire: F -> bytes, frames: seq<F>): bytes {
    if frames == [] then [] else wire(frames[0]) + Sent(wire, frames[1..])
  }

  /** Each frame is read off its wire form when the rest follow, and then `tail`. */
  ghost predicate AllRead<F(!new), E(!new)>(dec: bytes -> Decoded<F, E>, wire: F -> bytes,
                                            frames: seq<F>, tail: bytes)
  {
    frames != [] ==>
      && dec(Sent(wire, frames) + tail) == Frame(frames[0], |wire(frames[0])|)
      && AllRead(dec, wire, frames[1..], tail)
  }

  lemma {:induction false} DrainOne<F(!new), E(!new)>(dec: bytes -> Decoded<F, E>, r: Reader<F, E>, f: F, n: nat)
    requires Stable(dec) && r.error.None? && dec(r.held) == Frame(f, n)
    ensures n <= |r.held| && Drain(dec, r) == Drain(dec, Reader(r.frames + [f], None, r.held[n..]))
  {
    assert Consumes(dec, r.held);
  }

  lemma {:induction false} DrainsWhatWasSent<F(!new), E(!new)>(dec: bytes -> Decoded<F, E>, wire: F -> bytes,
                                                               frames: seq<F>, before: seq<F>, tail: bytes)
    requires Stable(dec) && AllRead(dec, wire, frames, tail)
    ensures Drain(dec, Reader(before, None, Sent(wire, frames) + tail))
         == Drain(dec, Reader(before + frames, None, tail))
    decreases frames
  {
    if frames == [] {
      assert before + frames == before && [] + tail == tail;
    } else {
      var w, rest := wire(frames[0]), Sent(wire, frames[1..]) + tail;
      assert Sent(wire, frames) + tail == w + rest;
      DrainOne(dec, Reader(before, None, w + rest), frames[0], |w|);
      assert (w + rest)[|w|..] == rest;
      DrainsWhatWasSent(dec, wire, frames[1..], before + [frames[0]], tail);
      assert before + [frames[0]] + frames[1..] == before + frames;
    }
  }

  /** What the reader makes of bytes that are not a whole frame: they stay, with the error they cause, if any. */
  ghost function Remainder<F(!new), E(!new)>(dec: bytes -> Decoded<F, E>, frames: seq<F>, tail: bytes): Reader<F, E>
    requires !dec(tail).Frame?
  {
    Reader(frames, if dec(tail).Broken? then Some(dec(tail).error) else None, tail)
  }

  /**
    Transport: frames sent one after another, and then bytes that are not a frame, delivered in any
    chunks: the frames arrive complete and in order, whatever comes of the rest, and the rest is
    what is left, with its error if it is malformed.
   */
  lemma {:induction false} Transport<F(!new), E(!new)>(dec: bytes -> Decoded<F, E>, wire: F -> bytes,
                                                       frames: seq<F>, tail: bytes, chunks: seq<bytes>)
    requires Stable(dec) && AllRead(dec, wire, frames, tail) && !dec(tail).Frame?
    requires Concat(chunks) == Sent(wire, frames) + tail
    ensures ArriveAll(dec, Reader([], None, []), chunks) == Remainder(dec, frames, tail)
  {
    ChunkIndependence(dec, chunks);
    DrainsWhatWasSent(dec, wire, frames, [], tail);
    assert [] + (Sent(wire, frames) + tail) == Sent(wire, frames) + tail && [] + frames == frames;
  }
}
