/** The Hotline and MySQL framings: fixed headers in front of a payload. */
module ExampleCodecs {
  import opened Base
  import opened Endian
  import opened Streaming

  datatype CodecError = PayloadTooLarge | InvalidTotalSize | PayloadTooLong

  // ---------------------------------------------------------------- Hotline

  const HOTLINE_HEADER: nat := 20

  datatype HotlineFrame = HotlineFrame(transactionId: u32, payload: bytes)

  function HotlineDecode(buf: bytes, max: usize): Decoded<HotlineFrame, CodecError> {
    if |buf| < HOTLINE_HEADER then Pending
    else
      var dataSize := FromBig(buf[0..4]);
      var totalSize := FromBig(buf[4..8]);
      BigWrites(buf[8..12]);
      Widths();
      var transactionId := FromBig(buf[8..12]);
      if dataSize > max then Broken(PayloadTooLarge)
      else if totalSize != dataSize + HOTLINE_HEADER then Broken(InvalidTotalSize)
      else if |buf| < totalSize then Pending
      else Frame(HotlineFrame(transactionId, buf[HOTLINE_HEADER..totalSize]), totalSize)
  }

  function HotlineWire(f: HotlineFrame): bytes {
    Big(|f.payload|, 4) + Big(|f.payload| + HOTLINE_HEADER, 4) + Big(f.transactionId, 4)
    + [0, 0, 0, 0, 0, 0, 0, 0] + f.payload
  }

  predicate HotlineFits(f: HotlineFrame, max: usize) {
    |f.payload| <= max && |f.payload| + HOTLINE_HEADER <= U32_MAX
  }

  class HotlineAdapter {
    const maxFrameLength: usize

    constructor (max: usize)
      ensures maxFrameLength == max
    {
      maxFrameLength := max;
    }

    method Encode(item: HotlineFrame, dst: Buffer) returns (r: Result<(), CodecError>)
      modifies dst
      ensures r == if HotlineFits(item, maxFrameLength) then Ok(()) else Err(PayloadTooLarge)
      ensures dst.data == if r.Ok? then old(dst.data) + HotlineWire(item) else old(dst.data)
    {
      var payloadSize := |item.payload|;
      if payloadSize > maxFrameLength {
        return Err(PayloadTooLarge);
      }
      var frameSize := payloadSize + HOTLINE_HEADER;
      if payloadSize > U32_MAX || frameSize > U32_MAX {
        return Err(PayloadTooLarge);
      }
      dst.data := dst.data + Big(payloadSize, 4);
      dst.data := dst.data + Big(frameSize, 4);
      dst.data := dst.data + Big(item.transactionId, 4);
      dst.data := dst.data + [0, 0, 0, 0, 0, 0, 0, 0];
      dst.data := dst.data + item.payload;
      return Ok(());
    }

    method DecodeNext(src: Buffer) returns (r: Result<Option<HotlineFrame>, CodecError>)
      modifies src
      ensures match HotlineDecode(old(src.data), maxFrameLength)
              case Pending => r == Ok(None) && src.data == old(src.data)
              case Broken(e) => r == Err(e) && src.data == old(src.data)
              case Frame(f, n) => n <= |old(src.data)| && r == Ok(Some(f)) && src.data == old(src.data)[n..]
    {
      match HotlineDecode(src.data, maxFrameLength) {
        case Pending =>
          return Ok(None);
        case Broken(e) =>
          return Err(e);
        case Frame(f, n) =>
          src.data := src.data[n..];
          return Ok(Some(f));
      }
    }
  }

  /** Where the pieces of a Hotline frame lie. */
  lemma HeaderFields(a: bytes, b: bytes, c: bytes, reserved: bytes, rest: bytes, n: nat)
    requires |a| == |b| == |c| == 4 && |reserved| == 8 && n <= |rest|
    ensures var buf := a + b + c + reserved + rest;
            && |buf| == 20 + |rest| && buf[0..4] == a && buf[4..8] == b && buf[8..12] == c
            && buf[20..20 + n] == rest[..n]
  {
    var head := a + b + c + reserved;
    assert |head| == 20 && head[0..4] == a && head[4..8] == b && head[8..12] == c;
    Headed(head, rest, n);
  }

  /** The fields of a twenty-byte head are where they were, and what follows comes after. */
  lemma Headed(head: bytes, rest: bytes, n: nat)
    requires |head| == 20 && n <= |rest|
    ensures var buf := head + rest;
            && buf[0..4] == head[0..4] && buf[4..8] == head[4..8] && buf[8..12] == head[8..12]
            && buf[20..20 + n] == rest[..n]
  {
  }

  /** A whole header with these fields, whatever its reserved bytes, decides by the fields and what follows. */
  lemma {:induction false} HotlineVerdict(dataSize: u32, totalSize: u32, id: u32,
                                          reserved: bytes, rest: bytes, max: usize)
    requires |reserved| == 8
    ensures HotlineDecode(Big(dataSize, 4) + Big(totalSize, 4) + Big(id, 4) + reserved + rest, max)
         == if dataSize > max then Broken(PayloadTooLarge)
            else if totalSize != dataSize + 20 then Broken(InvalidTotalSize)
            else if |rest| < dataSize then Pending
            else Frame(HotlineFrame(id, rest[..dataSize]), totalSize)
  {
    Widths();
    BigReads(dataSize, 4);
    BigReads(totalSize, 4);
    BigReads(id, 4);
    HeaderFields(Big(dataSize, 4), Big(totalSize, 4), Big(id, 4), reserved, rest,
                 if dataSize <= |rest| then dataSize else 0);
  }

  /** A frame the encoder accepts is decoded from its wire form, whatever bytes follow. */
  lemma HotlineRoundTrip(f: HotlineFrame, rest: bytes, max: usize)
    requires HotlineFits(f, max)
    ensures HotlineDecode(HotlineWire(f) + rest, max) == Frame(f, |HotlineWire(f)|)
  {
    var size := |f.payload|;
    HotlineVerdict(size, size + 20, f.transactionId, [0, 0, 0, 0, 0, 0, 0, 0], f.payload + rest, max);
    var head := Big(size, 4) + Big(size + 20, 4) + Big(f.transactionId, 4) + [0, 0, 0, 0, 0, 0, 0, 0];
    assert head + f.payload + rest == head + (f.payload + rest);
    assert (f.payload + rest)[..size] == f.payload;
  }

  /** Conversely, an accepted frame's wire form is the input up to the eight reserved bytes. */
  lemma HotlineReencodes(buf: bytes, max: usize)
    requires HotlineDecode(buf, max).Frame?
    ensures var Frame(f, n) := HotlineDecode(buf, max);
            && HotlineFits(f, max)
            && n <= |buf| && HotlineWire(f) == buf[..12] + [0, 0, 0, 0, 0, 0, 0, 0] + buf[20..n]
  {
    Widths();
    BigWrites(buf[0..4]);
    BigWrites(buf[4..8]);
    BigWrites(buf[8..12]);
    assert buf[..12] == buf[0..4] + buf[4..8] + buf[8..12];
  }

  /** A full header and `max` more bytes are always enough for an answer. */
  lemma HotlineDecides(buf: bytes, max: usize)
    requires |buf| >= HOTLINE_HEADER + max
    ensures !HotlineDecode(buf, max).Pending?
  {
  }

  function HotlineDecoder(max: usize): bytes -> Decoded<HotlineFrame, CodecError> {
    (buf: bytes) => HotlineDecode(buf, max)
  }

  lemma HotlineStable(max: usize)
    ensures Stable(HotlineDecoder(max))
  {
    var dec := HotlineDecoder(max);
    forall a: bytes, b: bytes
      ensures Lasts(dec, a, b)
    {
      if a <= b && !dec(a).Pending? {
        assert a[0..4] == b[0..4] && a[4..8] == b[4..8] && a[8..12] == b[8..12];
        if dec(a).Frame? {
          assert a[HOTLINE_HEADER..dec(a).used] == b[HOTLINE_HEADER..dec(a).used];
        }
      }
    }
  }

  lemma {:induction false} HotlineChunkIndependence(max: usize, chunks: seq<bytes>)
    ensures Stable(HotlineDecoder(max))
    ensures ArriveAll(HotlineDecoder(max), Reader([], None, []), chunks)
         == Arrive(HotlineDecoder(max), Reader([], None, []), Concat(chunks))
  {
    HotlineStable(max);
    ChunkIndependence(HotlineDecoder(max), chunks);
  }

  lemma {:induction false} HotlineIsRead(max: usize, frames: seq<HotlineFrame>, tail: bytes)
    requires forall i :: 0 <= i < |frames| ==> HotlineFits(frames[i], max)
    ensures AllRead(HotlineDecoder(max), HotlineWire, frames, tail)
    decreases |frames|
  {
    if frames != [] {
      var w, rest := HotlineWire(frames[0]), Sent(HotlineWire, frames[1..]);
      assert Sent(HotlineWire, frames) + tail == w + (rest + tail);
      HotlineRoundTrip(frames[0], rest + tail, max);
      HotlineIsRead(max, frames[1..], tail);
    }
  }

  lemma {:induction false} HotlineTransport(max: usize, frames: seq<HotlineFrame>, tail: bytes, chunks: seq<bytes>)
    requires Concat(chunks) == Sent(HotlineWire, frames) + tail && !HotlineDecoder(max)(tail).Frame?
    requires forall i :: 0 <= i < |frames| ==> HotlineFits(frames[i], max)
    ensures Stable(HotlineDecoder(max))
    ensures ArriveAll(HotlineDecoder(max), Reader([], None, []), chunks) == Remainder(HotlineDecoder(max), frames, tail)
  {
    HotlineStable(max);
    HotlineIsRead(max, frames, tail);
    Transport(HotlineDecoder(max), HotlineWire, frames, tail, chunks);
  }

  // ---------------------------------------------------------------- MySQL

  const MYSQL_HEADER: nat := 4
  const MYSQL_MAX_PAYLOAD: nat := 0xFF_FFFF

  datatype MysqlFrame = MysqlFrame(sequenceId: byte, payload: bytes)

  function MysqlDecode(buf: bytes, max: usize): Decoded<MysqlFrame, CodecError> {
    if |buf| < MYSQL_HEADER then Pending
    else
      var len := FromLittle(buf[0..3]);
      if len > max then Broken(PayloadTooLarge)
      else if |buf| < MYSQL_HEADER + len then Pending
      else Frame(MysqlFrame(buf[3], buf[MYSQL_HEADER..MYSQL_HEADER + len]), MYSQL_HEADER + len)
  }

  function MysqlWire(f: MysqlFrame): bytes {
    Little(|f.payload|, 3) + [f.sequenceId] + f.payload
  }

  class MysqlAdapter {
    const maxFrameLength: usize

    constructor (max: usize)
      ensures maxFrameLength == max
    {
      maxFrameLength := max;
    }

    method Encode(item: MysqlFrame, dst: Buffer) returns (r: Result<(), CodecError>)
      modifies dst
      ensures r == if |item.payload| > maxFrameLength then Err(PayloadTooLarge)
                   else if |item.payload| > MYSQL_MAX_PAYLOAD then Err(PayloadTooLong)
                   else Ok(())
      ensures dst.data == if r.Ok? then old(dst.data) + MysqlWire(item) else old(dst.data)
    {
      var len := |item.payload|;
      if len > maxFrameLength {
        return Err(PayloadTooLarge);
      }
      if len > MYSQL_MAX_PAYLOAD {
        return Err(PayloadTooLong);
      }
      dst.data := dst.data + [len % 256];
      dst.data := dst.data + [len / 256 % 256];
      dst.data := dst.data + [len / 256 / 256 % 256];
      assert Little(len / 256 / 256, 1) == [len / 256 / 256 % 256];
      assert Little(len, 3) == [len % 256, len / 256 % 256, len / 256 / 256 % 256];
      dst.data := dst.data + [item.sequenceId];
      dst.data := dst.data + item.payload;
      return Ok(());
    }

    method DecodeNext(src: Buffer) returns (r: Result<Option<MysqlFrame>, CodecError>)
      modifies src
      ensures match MysqlDecode(old(src.data), maxFrameLength)
              case Pending => r == Ok(None) && src.data == old(src.data)
              case Broken(e) => r == Err(e) && src.data == old(src.data)
              case Frame(f, n) => n <= |old(src.data)| && r == Ok(Some(f)) && src.data == old(src.data)[n..]
    {
      match MysqlDecode(src.data, maxFrameLength) {
        case Pending =>
          return Ok(None);
        case Broken(e) =>
          return Err(e);
        case Frame(f, n) =>
          src.data := src.data[n..];
          return Ok(Some(f));
      }
    }
  }

  lemma MysqlRoundTrip(f: MysqlFrame, rest: bytes, max: usize)
    requires |f.payload| <= max && |f.payload| <= MYSQL_MAX_PAYLOAD
    ensures MysqlDecode(MysqlWire(f) + rest, max) == Frame(f, |MysqlWire(f)|)
  {
    var buf := MysqlWire(f) + rest;
    Widths();
    LittleReads(|f.payload|, 3);
    assert buf[0..3] == Little(|f.payload|, 3);
    assert buf[MYSQL_HEADER..MYSQL_HEADER + |f.payload|] == f.payload;
  }

  /** Conversely, the bytes consumed are exactly the wire form of the accepted frame. */
  lemma MysqlReencodes(buf: bytes, max: usize)
    requires MysqlDecode(buf, max).Frame?
    ensures var Frame(f, n) := MysqlDecode(buf, max); n <= |buf| && MysqlWire(f) == buf[..n]
  {
    LittleWrites(buf[0..3]);
    var n := MysqlDecode(buf, max).used;
    assert buf[..n] == buf[0..3] + [buf[3]] + buf[4..n];
  }

  /** A whole header with these fields decides by them and by what follows. */
  lemma {:induction false} MysqlVerdict(len: nat, id: byte, rest: bytes, max: usize)
    requires len <= MYSQL_MAX_PAYLOAD
    ensures MysqlDecode(Little(len, 3) + [id] + rest, max)
         == if len > max then Broken(PayloadTooLarge)
            else if |rest| < len then Pending
            else Frame(MysqlFrame(id, rest[..len]), 4 + len)
  {
    var buf := Little(len, 3) + [id] + rest;
    Widths();
    LittleReads(len, 3);
    assert buf[0..3] == Little(len, 3);
    if len <= |rest| {
      assert buf[4..4 + len] == rest[..len];
    }
  }

  lemma MysqlDecides(buf: bytes, max: usize)
    requires |buf| >= MYSQL_HEADER + max
    ensures !MysqlDecode(buf, max).Pending?
  {
  }

  function MysqlDecoder(max: usize): bytes -> Decoded<MysqlFrame, CodecError> {
    (buf: bytes) => MysqlDecode(buf, max)
  }

  lemma MysqlStable(max: usize)
    ensures Stable(MysqlDecoder(max))
  {
    var dec := MysqlDecoder(max);
    forall a: bytes, b: bytes
      ensures Lasts(dec, a, b)
    {
      if a <= b && !dec(a).Pending? {
        assert a[0..3] == b[0..3];
        if dec(a).Frame? {
          assert a[MYSQL_HEADER..dec(a).used] == b[MYSQL_HEADER..dec(a).used];
        }
      }
    }
  }

  lemma {:induction false} MysqlChunkIndependence(max: usize, chunks: seq<bytes>)
    ensures Stable(MysqlDecoder(max))
    ensures ArriveAll(MysqlDecoder(max), Reader([], None, []), chunks)
         == Arrive(MysqlDecoder(max), Reader([], None, []), Concat(chunks))
  {
    MysqlStable(max);
    ChunkIndependence(MysqlDecoder(max), chunks);
  }

  lemma {:induction false} MysqlIsRead(max: usize, frames: seq<MysqlFrame>, tail: bytes)
    requires forall i :: 0 <= i < |frames| ==> |frames[i].payload| <= max && |frames[i].payload| <= MYSQL_MAX_PAYLOAD
    ensures AllRead(MysqlDecoder(max), MysqlWire, frames, tail)
    decreases |frames|
  {
    if frames != [] {
      var w, rest := MysqlWire(frames[0]), Sent(MysqlWire, frames[1..]);
      assert Sent(MysqlWire, frames) + tail == w + (rest + tail);
      MysqlRoundTrip(frames[0], rest + tail, max);
      MysqlIsRead(max, frames[1..], tail);
    }
  }

  lemma {:induction false} MysqlTransport(max: usize, frames: seq<MysqlFrame>, tail: bytes, chunks: seq<bytes>)
    requires Concat(chunks) == Sent(MysqlWire, frames) + tail && !MysqlDecoder(max)(tail).Frame?
    requires forall i :: 0 <= i < |frames| ==> |frames[i].payload| <= max && |frames[i].payload| <= MYSQL_MAX_PAYLOAD
    ensures Stable(MysqlDecoder(max))
    ensures ArriveAll(MysqlDecoder(max), Reader([], None, []), chunks) == Remainder(MysqlDecoder(max), frames, tail)
  {
    MysqlStable(max);
    MysqlIsRead(max, frames, tail);
    Transport(MysqlDecoder(max), MysqlWire, frames, tail, chunks);
  }
}
