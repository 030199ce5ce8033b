/** The codec as the daemon runs it: the encoder writes a caller's buffer in place,
    the decoder fills a packet record field by field. */
module CodecBuffer {
  import opened Bytes
  import opened Fsm
  import opened Codec
  import opened WireFormat

  // ---- Writing into a buffer ---------------------------------------------

  /** No index of the encoder leaves the buffer. A buffer that is too small for the
      packet is reported, but the section encoder writes its fixed fields unasked. */
  predicate MarshalSafe(p: ControlPacket, size: nat) {
    HasSection(p) && TotalLen(p) <= size ==> SectionSafe(p.auth.value, size)
  }

  predicate SectionSafe(a: AuthSection, size: nat) {
    && size >= HEADER_SIZE + 2
    && (a.authType == AUTH_SIMPLE ==> size >= HEADER_SIZE + 3)
    && (IsHashType(a.authType) ==> size >= HEADER_SIZE + 8)
  }

  ghost function SectionInto(a: AuthSection, b: seq<u8>): (r: seq<u8>)
    requires SectionSafe(a, |b|)
    ensures |r| == |b|
  {
    var c := CopyAt(b, HEADER_SIZE, [a.authType, a.len]);
    if a.authType == AUTH_SIMPLE then
      CopyAt(CopyAt(c, HEADER_SIZE + 2, [a.keyId]), HEADER_SIZE + 3, a.authData)
    else if IsHashType(a.authType) then
      CopyAt(CopyAt(c, HEADER_SIZE + 2, [a.keyId, 0] + U32Bytes(a.seqNum)), HEADER_SIZE + 8, a.digest)
    else
      c
  }

  /** The whole buffer after the encoder has run on it. */
  ghost function BufferAfter(p: ControlPacket, b: seq<u8>): (r: seq<u8>)
    requires TotalLen(p) <= |b| && MarshalSafe(p, |b|)
    ensures |r| == |b|
  {
    var h := CopyAt(b, 0, Header(p));
    if HasSection(p) then SectionInto(p.auth.value, h) else h
  }

  /** For a well-formed section the buffer holds the encoding and then what it held
      before: nothing stale inside the packet, nothing touched behind it. */
  lemma BufferHoldsEncoding(p: ControlPacket, b: seq<u8>)
    requires WellFormedAuth(p) && TotalLen(p) <= |b|
    ensures MarshalSafe(p, |b|)
    ensures |Encode(p)| == TotalLen(p)
    ensures BufferAfter(p, b) == Encode(p) + b[TotalLen(p)..]
  {
    var h := CopyAt(b, 0, Header(p));
    assert h == Header(p) + b[HEADER_SIZE..];
    if HasSection(p) {
      SectionRoundTrip(p.auth.value);
      SectionIntoPlace(p.auth.value, h);
      assert h[..HEADER_SIZE] == Header(p);
      assert h[TotalLen(p)..] == b[TotalLen(p)..];
    }
  }

  lemma BufferLaidOut(p: ControlPacket, b: seq<u8>)
    requires WellFormed(p) && TotalLen(p) <= |b|
    ensures LaidOut(BufferAfter(p, b), p) && BufferAfter(p, b)[3] == TotalLen(p)
  {
    BufferHoldsEncoding(p, b);
    EncodeWrites(p, b[TotalLen(p)..]);
  }

  /** The Length byte of a laid-out packet is its length. */
  lemma EncodedLength(p: ControlPacket)
    requires WellFormedAuth(p)
    ensures |Encode(p)| == TotalLen(p) <= MAX_PACKET_SIZE && Encode(p)[3] == TotalLen(p)
  {
  }

  lemma SectionIntoPlace(a: AuthSection, h: seq<u8>)
    requires WellFormedSection(a) && HEADER_SIZE + a.len <= |h|
    ensures |SectionBytes(a)| == a.len
    ensures SectionInto(a, h) == h[..HEADER_SIZE] + SectionBytes(a) + h[HEADER_SIZE + a.len..]
  {
    if a.authType == AUTH_SIMPLE {
      CopyThree(h, HEADER_SIZE, [a.authType, a.len], [a.keyId], a.authData);
    } else {
      HashIntoPlace(a, U32Bytes(a.seqNum), h);
    }
  }

  lemma HashIntoPlace(a: AuthSection, word: seq<u8>, h: seq<u8>)
    requires |word| == 4 && HEADER_SIZE + 8 + |a.digest| <= |h|
    ensures CopyAt(CopyAt(CopyAt(h, HEADER_SIZE, [a.authType, a.len]), HEADER_SIZE + 2, [a.keyId, 0] + word),
                   HEADER_SIZE + 8, a.digest)
            == h[..HEADER_SIZE] + ([a.authType, a.len, a.keyId, 0] + word + a.digest) + h[HEADER_SIZE + 8 + |a.digest|..]
  {
  }

  /** Three adjacent copies place their concatenation. */
  lemma CopyThree(h: seq<u8>, off: nat, x: seq<u8>, y: seq<u8>, z: seq<u8>)
    requires off + |x| + |y| + |z| <= |h|
    ensures CopyAt(CopyAt(CopyAt(h, off, x), off + |x|, y), off + |x| + |y|, z)
            == h[..off] + (x + y + z) + h[off + |x| + |y| + |z|..]
  {
  }

  method PutU32(buf: array<u8>, off: nat, x: u32)
    requires off + 4 <= buf.Length
    modifies buf
    ensures buf[..] == CopyAt(old(buf[..]), off, U32Bytes(x))
  {
    U32BytesOf(x);
    var w := BytesOf(x, 4);
    buf[off] := w[0];
    buf[off + 1] := w[1];
    buf[off + 2] := w[2];
    buf[off + 3] := w[3];
  }

  /** Go's copy(buf[off:], src). */
  method CopyInto(buf: array<u8>, off: nat, src: seq<u8>)
    requires off <= buf.Length
    modifies buf
    ensures buf[..] == CopyAt(old(buf[..]), off, src)
  {
    var i := 0;
    while i < |src| && off + i < buf.Length
      invariant 0 <= i <= |src| && off + i <= buf.Length
      invariant forall j :: 0 <= j < buf.Length ==> buf[j] == if off <= j < off + i then src[j - off] else old(buf[j])
    {
      buf[off + i] := src[i];
      i := i + 1;
    }
  }

  method MarshalHash(a: AuthSection, buf: array<u8>)
    requires buf.Length >= HEADER_SIZE + 8
    modifies buf
    ensures buf[..] == CopyAt(CopyAt(old(buf[..]), HEADER_SIZE + 2, [a.keyId, 0] + U32Bytes(a.seqNum)), HEADER_SIZE + 8, a.digest)
  {
    buf[HEADER_SIZE + 2] := a.keyId;
    buf[HEADER_SIZE + 3] := 0;
    PutU32(buf, HEADER_SIZE + 4, a.seqNum);
    assert buf[..] == CopyAt(old(buf[..]), HEADER_SIZE + 2, [a.keyId, 0] + U32Bytes(a.seqNum));
    CopyInto(buf, HEADER_SIZE + 8, a.digest);
  }

  /** marshalAuthSection: a section that does not fit is refused before anything is
      written. */
  method MarshalSection(a: AuthSection, buf: array<u8>) returns (err: Option<CodecError>)
    requires HEADER_SIZE + a.len <= buf.Length ==> SectionSafe(a, buf.Length)
    modifies buf
    ensures HEADER_SIZE + a.len > buf.Length ==> err == Some(BufTooSmall) && buf[..] == old(buf[..])
    ensures HEADER_SIZE + a.len <= buf.Length ==>
              && buf[..] == SectionInto(a, old(buf[..]))
              && err == if a.authType == AUTH_SIMPLE || IsHashType(a.authType) then None else Some(InvalidAuthType)
  {
    if HEADER_SIZE + a.len > buf.Length {
      return Some(BufTooSmall);
    }
    buf[HEADER_SIZE] := a.authType;
    buf[HEADER_SIZE + 1] := a.len;
    assert buf[..] == CopyAt(old(buf[..]), HEADER_SIZE, [a.authType, a.len]);
    if a.authType == AUTH_SIMPLE {
      buf[HEADER_SIZE + 2] := a.keyId;
      CopyInto(buf, HEADER_SIZE + 3, a.authData);
      err := None;
    } else if IsHashType(a.authType) {
      MarshalHash(a, buf);
      err := None;
    } else {
      err := Some(InvalidAuthType);
    }
  }

  method MarshalHeader(p: ControlPacket, buf: array<u8>)
    requires HEADER_SIZE <= TotalLen(p) <= buf.Length
    modifies buf
    ensures buf[..] == CopyAt(old(buf[..]), 0, Header(p))
  {
    buf[0] := p.version % 8 * 32 + p.diag % 32;
    buf[1] := FlagByte(p);
    buf[2] := p.detectMult;
    buf[3] := TotalLen(p) % 256;
    PutU32(buf, 4, p.my);
    PutU32(buf, 8, p.your);
    PutU32(buf, 12, p.desiredMinTx);
    PutU32(buf, 16, p.requiredMinRx);
    PutU32(buf, 20, p.requiredMinEchoRx);
    assert buf[..HEADER_SIZE] == Header(p);
  }

  /** MarshalControlPacket. */
  method Marshal(p: ControlPacket, buf: array<u8>) returns (r: Result<nat, CodecError>)
    requires MarshalSafe(p, buf.Length)
    modifies buf
    ensures buf.Length < TotalLen(p) ==> r == Err(BufTooSmall) && buf[..] == old(buf[..])
    ensures buf.Length >= TotalLen(p) ==> buf[..] == BufferAfter(p, old(buf[..]))
    ensures buf.Length >= TotalLen(p) ==>
              r == if HasSection(p) && p.auth.value.authType != AUTH_SIMPLE && !IsHashType(p.auth.value.authType)
                   then Err(InvalidAuthType) else Ok(TotalLen(p))
    ensures buf.Length >= TotalLen(p) && WellFormed(p) ==> LaidOut(buf[..], p) && buf[3] == TotalLen(p)
  {
    var total := TotalLen(p);
    if buf.Length < total {
      return Err(BufTooSmall);
    }
    MarshalHeader(p, buf);
    if HasSection(p) {
      var err := MarshalSection(p.auth.value, buf);
      if err.Some? {
        return Err(err.value);
      }
    }
    if WellFormed(p) {
      BufferLaidOut(p, old(buf[..]));
    }
    return Ok(total);
  }

  // ---- Filling a packet record -------------------------------------------

  /** The record that the decoder fills in place; its fields keep whatever an
      earlier packet left there until they are assigned. */
  class PacketSlot {
    var pkt: ControlPacket

    constructor (p: ControlPacket)
      ensures pkt == p
    {
      pkt := p;
    }

    method FillBody(b: array<u8>)
      requires b.Length >= HEADER_SIZE
      modifies this
      ensures pkt == old(pkt).(my := U32At(b[..], 4), your := U32At(b[..], 8), desiredMinTx := U32At(b[..], 12),
                               requiredMinRx := U32At(b[..], 16), requiredMinEchoRx := U32At(b[..], 20))
    {
      pkt := pkt.(my := U32At(b[..], 4));
      pkt := pkt.(your := U32At(b[..], 8));
      pkt := pkt.(desiredMinTx := U32At(b[..], 12));
      pkt := pkt.(requiredMinRx := U32At(b[..], 16));
      pkt := pkt.(requiredMinEchoRx := U32At(b[..], 20));
    }

    method FillFixedPart(b: array<u8>)
      requires b.Length >= HEADER_SIZE
      modifies this
      ensures var h := DecodeHeader(b[..]);
              pkt == h.(my := old(pkt).my, your := old(pkt).your, desiredMinTx := old(pkt).desiredMinTx,
                        requiredMinRx := old(pkt).requiredMinRx, requiredMinEchoRx := old(pkt).requiredMinEchoRx,
                        auth := old(pkt).auth)
    {
      SixBits();
      BitsOfValue(b[1] % 64, 6);
      var flags := BitsOf(b[1] % 64, 6);
      BitsValueInjective(flags, Bits(b[1] % 64, 6));
      pkt := pkt.(version := b[0] / 32, diag := b[0] % 32, state := StateOfCode(b[1] / 64));
      pkt := pkt.(poll := flags[0], final := flags[1], cpi := flags[2]);
      pkt := pkt.(authPresent := flags[3], demand := flags[4], multipoint := flags[5]);
      pkt := pkt.(detectMult := b[2], length := b[3]);
    }

    /** The header, checked part by part as it is filled in. */
    method FillHeader(b: array<u8>) returns (err: Option<CodecError>)
      modifies this
      ensures match CheckedHeader(b[..])
              case Ok(p) => err == None && pkt == p
              case Err(e) => err == Some(e)
    {
      if b.Length < HEADER_SIZE {
        return Some(PacketTooShort);
      }
      FillFixedPart(b);
      err := CheckFixedPart(pkt, b.Length);
      if err.Some? {
        return;
      }
      FillBody(b);
      pkt := pkt.(auth := None);
      assert pkt == DecodeHeader(b[..]);
      err := CheckDiscriminators(pkt);
    }

    /** UnmarshalControlPacket: reports what Decode reports, and on success leaves
        exactly the decoded packet, whatever the record held before. */
    method Unmarshal(b: array<u8>) returns (err: Option<CodecError>)
      modifies this
      ensures match Decode(b[..])
              case Ok(p) => err == None && pkt == p && LaidOut(b[..], pkt) && pkt.length == b[3]
              case Err(e) => err == Some(e)
    {
      if Decode(b[..]).Ok? {
        DecodeReads(b[..]);
      }
      err := FillHeader(b);
      if err.Some? {
        return;
      }
      match AddSection(pkt, b[..]) {
        case Err(e) => err := Some(e);
        case Ok(p) => pkt := p;
      }
    }
  }
}
