/** The RESP transport adapter: frame-size policy on top of the parser and the printer. */
module RespCodec {
  import opened Base
  import opened RespFrame
  import opened Streaming
  import P = RespParse
  import E = RespEncode
  import T = RespTheorems

  /** What one call of the adapter's decoder does with the bytes it holds. */
  function Decode(buf: bytes, max: usize): Decoded<Frame, P.ParseError> {
    match P.ParseFrame(buf, max)
    case NeedMore => Pending
    case Fail(e) => Broken(e)
    case Done(f, used) => if used > max then Broken(P.FrameTooLarge) else Streaming.Frame(f, used)
  }

  function Decoder(max: usize): bytes -> Decoded<Frame, P.ParseError> {
    (buf: bytes) => Decode(buf, max)
  }

  class RespAdapter {
    const maxFrameLength: usize

    constructor (max: usize)
      ensures maxFrameLength == max
    {
      maxFrameLength := max;
    }

    /** A frame leaves the buffer with exactly its own bytes; otherwise the buffer is untouched. */
    method DecodeNext(src: Buffer) returns (r: Result<Option<Frame>, P.ParseError>)
      modifies src
      ensures match Decode(old(src.data), maxFrameLength)
              case Pending => r == Ok(None) && src.data == old(src.data)
              case Broken(e) => r == Err(e) && src.data == old(src.data)
              case Frame(f, n) => n <= |old(src.data)| && r == Ok(Some(f)) && src.data == old(src.data)[n..]
    {
      T.FrameBounds(src.data, 0, maxFrameLength, 0);
      match P.ParseFrame(src.data, maxFrameLength) {
        case NeedMore =>
          return Ok(None);
        case Fail(e) =>
          return Err(e);
        case Done(f, used) =>
          if used > maxFrameLength {
            return Err(P.FrameTooLarge);
          }
          src.data := src.data[used..];
          return Ok(Some(f));
      }
    }

    /** Measure, check, then emit: a rejected frame leaves the destination untouched. */
    method Encode(item: Frame, dst: Buffer) returns (r: Result<(), E.EncodeError>)
      modifies dst
      ensures match r
              case Ok(_) => Shallow(item, 0) && |Wire(item)| <= maxFrameLength
              case Err(DepthExceeded) => !Shallow(item, 0)
              case Err(FrameTooLarge) => |Wire(item)| > maxFrameLength
      ensures dst.data == if r.Ok? then old(dst.data) + Wire(item) else old(dst.data)
    {
      var len :- E.EncodedLenAt(item, 0);
      if len > maxFrameLength {
        return Err(E.FrameTooLarge);
      }
      var emitted := E.EncodeFrameAt(item, dst, 0);
      return Ok(());
    }
  }

  /** The adapter yields exactly the frames spelt by the leading bytes, no longer than the limit. */
  lemma DecodesExactly(buf: bytes, max: usize, f: Frame, n: nat)
    requires |buf| <= USIZE_MAX
    ensures Decode(buf, max) == Streaming.Frame(f, n) <==> n <= max && exists sp :: T.Spelt(sp, buf, n, f, max)
    ensures n > max && (exists sp :: T.Spelt(sp, buf, n, f, max)) ==> Decode(buf, max) == Broken(P.FrameTooLarge)
  {
    T.ParsesExactlyTheGrammar(buf, max, f, n);
  }

  lemma DecoderStable(max: usize)
    ensures Stable(Decoder(max))
  {
    var dec := Decoder(max);
    forall a: bytes, b: bytes
      ensures Lasts(dec, a, b)
    {
      if a <= b {
        T.PrefixStability(a, b[|a|..], max);
        assert b == a + b[|a|..];
      }
    }
    forall a: bytes
      ensures Consumes(dec, a)
    {
      T.PrefixStability(a, [], max);
    }
  }

  /** The frames, first error and leftover of a RESP stream do not depend on how it is chunked. */
  lemma {:induction false} RespChunkIndependence(max: usize, chunks: seq<bytes>)
    ensures Stable(Decoder(max))
    ensures ArriveAll(Decoder(max), Reader([], None, []), chunks)
         == Arrive(Decoder(max), Reader([], None, []), Concat(chunks))
  {
    DecoderStable(max);
    ChunkIndependence(Decoder(max), chunks);
  }

  lemma {:induction false} WireIsRead(max: usize, frames: seq<Frame>, tail: bytes)
    requires forall i :: 0 <= i < |frames| ==>
               Shallow(frames[i], 0) && Carriable(frames[i]) && |Wire(frames[i])| <= max
    ensures AllRead(Decoder(max), Wire, frames, tail)
    decreases |frames|
  {
    if frames != [] {
      var w, rest := Wire(frames[0]), Sent(Wire, frames[1..]);
      assert Sent(Wire, frames) + tail == w + (rest + tail);
      T.RoundTrip(frames[0], rest + tail, max);
      WireIsRead(max, frames[1..], tail);
    }
  }

  lemma {:induction false} WireAllIsSent(frames: seq<Frame>)
    ensures WireAll(frames) == Sent(Wire, frames)
    decreases |frames|
  {
    if frames != [] {
      WireAllIsSent(frames[1..]);
    }
  }

  /** Frames the encoder accepts and the wire form can carry arrive through any chunking, whatever follows them. */
  lemma {:induction false} RespTransport(max: usize, frames: seq<Frame>, tail: bytes, chunks: seq<bytes>)
    requires Concat(chunks) == WireAll(frames) + tail && !Decoder(max)(tail).Frame?
    requires forall i :: 0 <= i < |frames| ==>
               Shallow(frames[i], 0) && Carriable(frames[i]) && |Wire(frames[i])| <= max
    ensures Stable(Decoder(max))
    ensures ArriveAll(Decoder(max), Reader([], None, []), chunks) == Remainder(Decoder(max), frames, tail)
  {
    DecoderStable(max);
    WireAllIsSent(frames);
    WireIsRead(max, frames, tail);
    Transport(Decoder(max), Wire, frames, tail, chunks);
  }
}
