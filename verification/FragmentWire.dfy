/** The fragment header, its embedding in a payload, and the envelope around both. */
module FragmentWire {
  import opened Base
  import opened Endian
  import opened Bincode

  datatype FragmentHeader = FragmentHeader(messageId: u64, index: u32, isLast: bool)

  /** Fields in declaration order; a boolean is one byte. */
  function HeaderWire(h: FragmentHeader): (s: bytes)
    ensures 3 <= |s| <= 15
  {
    Varint(h.messageId) + Varint(h.index) + [if h.isLast then 1 else 0]
  }

  /** The header at the front of `s` and the bytes it took. */
  function ReadHeader(s: bytes): Result<(FragmentHeader, nat), DecodeError> {
    match ReadVarint(s, 8)
    case Err(e) => Err(e)
    case Ok((id, a)) =>
      ReadFits(s, 8);
      match ReadVarint(s[a..], 4)
      case Err(e) => Err(e)
      case Ok((index, b)) =>
        ReadFits(s[a..], 4);
        if a + b >= |s| then Err(UnexpectedEnd)
        else if s[a + b] > 1 then Err(InvalidBoolean)
        else Ok((FragmentHeader(id, index, s[a + b] == 1), a + b + 1))
  }

  const MAGIC: bytes := [70, 82, 65, 71]

  /** Marker, header length, header, fragment bytes. */
  function FragmentPayload(h: FragmentHeader, body: bytes): (s: bytes)
    ensures |s| == 6 + |HeaderWire(h)| + |body|
  {
    MAGIC + Big(|HeaderWire(h)|, 2) + HeaderWire(h) + body
  }

  method EncodeFragmentPayload(h: FragmentHeader, body: bytes) returns (buf: bytes)
    ensures buf == FragmentPayload(h, body)
  {
    var header := HeaderWire(h);
    buf := [];
    buf := buf + MAGIC;
    buf := buf + Big(|header|, 2);
    buf := buf + header;
    buf := buf + body;
  }

  /** `None` when the marker is absent, an error when what follows it is not a whole header. */
  function DecodeFragmentPayload(s: bytes): Result<Option<(FragmentHeader, bytes)>, DecodeError> {
    if |s| < 6 || s[..4] != MAGIC then Ok(None)
    else
      var headerLen := FromBig(s[4..6]);
      if |s| < 6 + headerLen then Err(UnexpectedEnd)
      else
        match ReadHeader(s[6..6 + headerLen])
        case Err(e) => Err(e)
        case Ok((h, used)) =>
          if used != headerLen then Err(HeaderLengthMismatch)
          else Ok(Some((h, s[6 + headerLen..])))
  }

  lemma HeaderRoundTrip(h: FragmentHeader)
    ensures ReadHeader(HeaderWire(h)) == Ok((h, |HeaderWire(h)|))
  {
    var a, b := Varint(h.messageId), Varint(h.index);
    var flag: bytes := [if h.isLast then 1 else 0];
    VarintRoundTrip(h.messageId, 8, b + flag);
    VarintRoundTrip(h.index, 4, flag);
    assert HeaderWire(h) == a + (b + flag);
    assert HeaderWire(h)[|a|..] == b + flag;
  }

  /** `hb` is an identifier and an index in any of their forms, and a flag byte. */
  ghost predicate HeaderForm(hb: bytes, h: FragmentHeader) {
    exists a, b :: Joins(hb, a, b, h)
  }

  predicate Joins(hb: bytes, a: bytes, b: bytes, h: FragmentHeader) {
    VarintForm(a, h.messageId, 8) && VarintForm(b, h.index, 4) && hb == a + (b + [if h.isLast then 1 else 0])
  }

  /** A header is read, to its last byte, exactly from its forms. */
  lemma ReadsHeaders(hb: bytes, h: FragmentHeader)
    ensures ReadHeader(hb) == Ok((h, |hb|)) <==> HeaderForm(hb, h)
  {
    if ReadHeader(hb) == Ok((h, |hb|)) {
      HeaderJoins(hb, h);
    }
    if HeaderForm(hb, h) {
      var a, b :| Joins(hb, a, b, h);
      HeaderReads(hb, a, b, h);
    }
  }

  lemma HeaderJoins(hb: bytes, h: FragmentHeader)
    requires ReadHeader(hb) == Ok((h, |hb|))
    ensures HeaderForm(hb, h)
  {
    var n := ReadVarint(hb, 8).value.1;
    var k := ReadVarint(hb[n..], 4).value.1;
    ReadsForms(hb, 8, h.messageId, n);
    ReadsForms(hb[n..], 4, h.index, k);
    ThreeParts(hb, n, k);
    assert Joins(hb, hb[..n], hb[n..][..k], h);
  }

  lemma ThreeParts(s: bytes, n: nat, k: nat)
    requires |s| == n + k + 1
    ensures s == s[..n] + (s[n..][..k] + [s[n + k]])
  {
    assert s[n..] == s[n..][..k] + [s[n + k]];
    assert s == s[..n] + s[n..];
  }

  lemma HeaderReads(hb: bytes, a: bytes, b: bytes, h: FragmentHeader)
    requires Joins(hb, a, b, h)
    ensures ReadHeader(hb) == Ok((h, |hb|))
  {
    var flag: bytes := [if h.isLast then 1 else 0];
    assert hb[..|a|] == a && hb[|a|..] == b + flag;
    assert (b + flag)[..|b|] == b && hb[|a| + |b|] == flag[0];
    ReadsForms(hb, 8, h.messageId, |a|);
    ReadsForms(b + flag, 4, h.index, |b|);
  }

  /** `s` is a marked payload whose header bytes `hb` spell `h`, in whatever widths, and end exactly. */
  ghost predicate Embeds(s: bytes, hb: bytes, h: FragmentHeader, body: bytes) {
    |hb| <= U16_MAX && HeaderForm(hb, h) && s == MAGIC + Big(|hb|, 2) + hb + body
  }

  lemma EmbeddedDecodes(s: bytes, hb: bytes, h: FragmentHeader, body: bytes)
    requires Embeds(s, hb, h, body)
    ensures DecodeFragmentPayload(s) == Ok(Some((h, body)))
  {
    var len := Big(|hb|, 2);
    Widths();
    BigReads(|hb|, 2);
    ReadsHeaders(hb, h);
    assert s[..4] == MAGIC;
    assert s[4..6] == len by {
      assert s == MAGIC + len + (hb + body);
      Middle(MAGIC, len, hb + body);
    }
    assert s[6..6 + |hb|] == hb by { Middle(MAGIC + len, hb, body); }
    assert s[6 + |hb|..] == body;
  }

  /** An embedded fragment is recovered, header and body, from its payload. */
  lemma FragmentPayloadRoundTrip(h: FragmentHeader, body: bytes)
    ensures DecodeFragmentPayload(FragmentPayload(h, body)) == Ok(Some((h, body)))
  {
    HeaderRoundTrip(h);
    ReadsHeaders(HeaderWire(h), h);
    EmbeddedDecodes(FragmentPayload(h, body), HeaderWire(h), h, body);
  }

  /** What a decoded payload consists of. */
  lemma {:induction false} DecodedParts(s: bytes, h: FragmentHeader, body: bytes) returns (n: nat)
    requires DecodeFragmentPayload(s) == Ok(Some((h, body)))
    ensures 6 + n <= |s| && s[..4] == MAGIC && n == FromBig(s[4..6])
    ensures ReadHeader(s[6..6 + n]) == Ok((h, n)) && body == s[6 + n..]
  {
    n := FromBig(s[4..6]);
  }

  lemma {:induction false} FourParts(s: bytes, n: nat, len: bytes)
    requires 6 + n <= |s| && s[..4] == MAGIC && s[4..6] == len
    ensures s == MAGIC + len + s[6..6 + n] + s[6 + n..]
  {
    assert s == s[..4] + s[4..6] + s[6..6 + n] + s[6 + n..];
  }

  lemma {:induction false} DecodedEmbeds(s: bytes, h: FragmentHeader, body: bytes) returns (hb: bytes)
    requires DecodeFragmentPayload(s) == Ok(Some((h, body)))
    ensures Embeds(s, hb, h, body)
  {
    var n := DecodedParts(s, h, body);
    hb := s[6..6 + n];
    Widths();
    BigWrites(s[4..6]);
    ReadsHeaders(hb, h);
    FourParts(s, n, Big(n, 2));
  }

  /**
    Decoding accounts for every byte: it finds a fragment exactly in the payloads that embed a
    header, and passes over exactly those that do not start with the marker and a length.
   */
  lemma DecodesExactly(s: bytes, h: FragmentHeader, body: bytes)
    ensures DecodeFragmentPayload(s) == Ok(None) <==> |s| < 6 || !(MAGIC <= s)
    ensures DecodeFragmentPayload(s) == Ok(Some((h, body))) <==> exists hb :: Embeds(s, hb, h, body)
  {
    Widths();
    if DecodeFragmentPayload(s) == Ok(Some((h, body))) {
      var hb := DecodedEmbeds(s, h, body);
    }
    if hb :| Embeds(s, hb, h, body) {
      EmbeddedDecodes(s, hb, h, body);
    }
  }

  // ---------------------------------------------------------------- envelopes

  datatype Envelope = Envelope(id: u32, correlationId: Option<u64>, payload: bytes)

  function OptionWire(o: Option<u64>): bytes {
    if o.None? then [0] else [1] + Varint(o.value)
  }

  /** The encoded envelope; a payload is a length and its bytes. */
  function EnvelopeWire(e: Envelope): bytes
    requires |e.payload| <= U64_MAX
  {
    Varint(e.id) + OptionWire(e.correlationId) + Varint(|e.payload|) + e.payload
  }
}
