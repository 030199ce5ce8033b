/** Tunnel packets as the daemon builds them: field by field, in a buffer of the exact size. */
module OverlayBuffer {
  import opened Bytes
  import opened CodecBuffer
  import opened Checksum
  import opened Overlay

  method PutU16(buf: array<u8>, off: nat, x: u16)
    requires off + 2 <= buf.Length
    modifies buf
    ensures buf[..] == CopyAt(old(buf[..]), off, U16Bytes(x))
  {
    U16BytesOf(x);
    var w := BytesOf(x, 2);
    buf[off] := w[0];
    buf[off + 1] := w[1];
  }

  lemma Adjacent(b: seq<u8>, off: nat, x: seq<u8>, y: seq<u8>)
    requires off + |x| + |y| <= |b|
    ensures CopyAt(CopyAt(b, off, x), off + |x|, y) == CopyAt(b, off, x + y)
  {
  }

  lemma ZeroWord()
    ensures U16Bytes(0) == [0, 0]
  {
  }

  method PutIpv4Front(buf: array<u8>, off: nat, total: u16)
    requires off + 10 <= buf.Length
    modifies buf
    ensures buf[..] == CopyAt(old(buf[..]), off, Ipv4Front(total))
  {
    ghost var b := buf[..];
    CopyInto(buf, off, [0x45, 0]);
    PutU16(buf, off + 2, total);
    CopyInto(buf, off + 4, [0, 0, 0x40, 0, 255, 17]);
    Adjacent(b, off, [0x45, 0], U16Bytes(total));
    Adjacent(b, off, [0x45, 0] + U16Bytes(total), [0, 0, 0x40, 0, 255, 17]);
  }

  /** The header with its checksum field still zero. */
  method PutIpv4Zero(buf: array<u8>, off: nat, total: u16, src: Quad, dst: Quad)
    requires off + 20 <= buf.Length
    modifies buf
    ensures buf[..] == CopyAt(old(buf[..]), off, Ipv4Header(total, 0, src, dst))
  {
    ghost var b := buf[..];
    PutIpv4Front(buf, off, total);
    CopyInto(buf, off + 10, [0, 0]);
    CopyInto(buf, off + 12, src);
    CopyInto(buf, off + 16, dst);
    ZeroWord();
    Adjacent(b, off, Ipv4Front(total), U16Bytes(0));
    Adjacent(b, off, Ipv4Front(total) + U16Bytes(0), src);
    Adjacent(b, off, Ipv4Front(total) + U16Bytes(0) + src, dst);
    assert Ipv4Front(total) + U16Bytes(0) + src + dst == Ipv4Header(total, 0, src, dst);
  }

  lemma Replaced(b: seq<u8>, off: nat, front: seq<u8>, x: seq<u8>, y: seq<u8>, rest: seq<u8>)
    requires |x| == |y| && off + |front| + |x| + |rest| <= |b|
    ensures CopyAt(CopyAt(b, off, front + x + rest), off + |front|, y) == CopyAt(b, off, front + y + rest)
  {
  }

  lemma ReadBack(b: seq<u8>, off: nat, x: seq<u8>)
    requires off + |x| <= |b|
    ensures CopyAt(b, off, x)[off..off + |x|] == x
  {
  }

  /** The header is written with a zero checksum, summed, and completed in place. */
  method PutIpv4(buf: array<u8>, off: nat, total: u16, src: Quad, dst: Quad)
    requires off + 20 <= buf.Length
    modifies buf
    ensures buf[..] == CopyAt(old(buf[..]), off, Ipv4Header(total, ChecksumFor(total, src, dst), src, dst))
  {
    ghost var b := buf[..];
    PutIpv4Zero(buf, off, total, src, dst);
    ReadBack(b, off, Ipv4Header(total, 0, src, dst));
    assert buf[off..off + 20] == buf[..][off..off + 20];
    var csum := HeaderChecksum(buf[off..off + 20]);
    PutU16(buf, off + 10, csum);
    Replaced(b, off, Ipv4Front(total), U16Bytes(0), U16Bytes(csum), src + dst);
  }

  method PutUdp(buf: array<u8>, off: nat, port: u16, len: u16)
    requires off + 8 <= buf.Length
    modifies buf
    ensures buf[..] == CopyAt(old(buf[..]), off, UdpHeader(port, len))
  {
    ghost var b := buf[..];
    PutU16(buf, off, port);
    PutU16(buf, off + 2, BFD_PORT);
    PutU16(buf, off + 4, len);
    CopyInto(buf, off + 6, [0, 0]);
    Adjacent(b, off, U16Bytes(port), U16Bytes(BFD_PORT));
    Adjacent(b, off, U16Bytes(port) + U16Bytes(BFD_PORT), U16Bytes(len));
    Adjacent(b, off, U16Bytes(port) + U16Bytes(BFD_PORT) + U16Bytes(len), [0, 0]);
  }

  lemma FourParts(b: seq<u8>, w: seq<u8>, x: seq<u8>, y: seq<u8>, z: seq<u8>)
    requires |b| == |w| + |x| + |y| + |z|
    ensures CopyAt(CopyAt(CopyAt(CopyAt(b, 0, w), |w|, x), |w| + |x|, y), |w| + |x| + |y|, z) == w + x + y + z
  {
  }

  method BuildInnerPacket(payload: seq<u8>, src: Addr, dst: Addr, port: u16) returns (r: Result<array<u8>, OverlayError>)
    ensures src.V4? && dst.V4? ==> r.Ok? && fresh(r.value) && r.value[..] == Inner(payload, src.quad, dst.quad, port)
    ensures !src.V4? || !dst.V4? ==> r == Err(InnerIpv4Only)
  {
    if !src.V4? || !dst.V4? {
      return Err(InnerIpv4Only);
    }
    var buf := new u8[INNER_OVERHEAD + |payload|](_ => 0);
    ghost var b := buf[..];
    CopyInto(buf, 0, ETHERNET);
    PutIpv4(buf, 14, Low16(28 + |payload|), src.quad, dst.quad);
    PutUdp(buf, 34, port, Low16(8 + |payload|));
    CopyInto(buf, 42, payload);
    ghost var total := Low16(28 + |payload|);
    FourParts(b, ETHERNET, Ipv4Header(total, ChecksumFor(total, src.quad, dst.quad), src.quad, dst.quad),
              UdpHeader(port, Low16(8 + |payload|)), payload);
    return Ok(buf);
  }

  method MarshalVxlanHeader(buf: array<u8>, vni: u32) returns (r: Result<nat, OverlayError>)
    modifies buf
    ensures buf.Length < TUNNEL_HEADER ==> r == Err(HeaderTooShort)
    ensures buf.Length >= TUNNEL_HEADER ==> r == if vni >= VNI_LIMIT then Err(VniOverflow) else Ok(TUNNEL_HEADER)
    ensures buf[..] == if r.Ok? then CopyAt(old(buf[..]), 0, VxlanHeader(vni)) else old(buf[..])
  {
    if buf.Length < TUNNEL_HEADER {
      return Err(HeaderTooShort);
    }
    if vni >= VNI_LIMIT {
      return Err(VniOverflow);
    }
    ghost var b := buf[..];
    CopyInto(buf, 0, [0x08, 0, 0, 0]);
    PutU32(buf, 4, vni * 0x100);
    Adjacent(b, 0, [0x08, 0, 0, 0], VniWord(vni));
    return Ok(TUNNEL_HEADER);
  }

  method MarshalGeneveHeader(buf: array<u8>, h: GeneveHeader) returns (r: Result<nat, OverlayError>)
    modifies buf
    ensures buf.Length < TUNNEL_HEADER ==> r == Err(HeaderTooShort)
    ensures buf.Length >= TUNNEL_HEADER ==> r == if h.vni >= VNI_LIMIT then Err(VniOverflow) else Ok(TUNNEL_HEADER)
    ensures buf[..] == if r.Ok? then CopyAt(old(buf[..]), 0, GeneveBytes(h)) else old(buf[..])
  {
    if buf.Length < TUNNEL_HEADER {
      return Err(HeaderTooShort);
    }
    if h.vni >= VNI_LIMIT {
      return Err(VniOverflow);
    }
    ghost var b := buf[..];
    var first, second := GeneveFirst(h), GeneveSecond(h);
    CopyInto(buf, 0, [first, second]);
    PutU16(buf, 2, h.proto);
    PutU32(buf, 4, h.vni * 0x100);
    Adjacent(b, 0, [first, second], U16Bytes(h.proto));
    Adjacent(b, 0, [first, second] + U16Bytes(h.proto), VniWord(h.vni));
    return Ok(TUNNEL_HEADER);
  }

  lemma TwoParts(b: seq<u8>, x: seq<u8>, y: seq<u8>)
    requires |b| == |x| + |y|
    ensures CopyAt(CopyAt(b, 0, x), |x|, y) == x + y
  {
  }

  /** The packet, or the error, that BuildVxlan prescribes. */
  method BuildVxlanPacket(payload: seq<u8>, vni: u32, src: Addr, dst: Addr, port: u16)
    returns (r: Result<array<u8>, OverlayError>)
    ensures match BuildVxlan(payload, vni, src, dst, port)
            case Ok(b) => r.Ok? && fresh(r.value) && r.value[..] == b
            case Err(e) => r == Err(e)
  {
    var inner := BuildInnerPacket(payload, src, dst, port);
    if inner.Err? {
      return Err(inner.error);
    }
    var buf := new u8[TUNNEL_HEADER + inner.value.Length](_ => 0);
    ghost var b := buf[..];
    var h := MarshalVxlanHeader(buf, vni);
    if h.Err? {
      return Err(h.error);
    }
    CopyInto(buf, TUNNEL_HEADER, inner.value[..]);
    TwoParts(b, VxlanHeader(vni), inner.value[..]);
    return Ok(buf);
  }

  /** The packet, or the error, that BuildGeneve prescribes. */
  method BuildGenevePacket(payload: seq<u8>, vni: u32, src: Addr, dst: Addr, port: u16)
    returns (r: Result<array<u8>, OverlayError>)
    ensures match BuildGeneve(payload, vni, src, dst, port)
            case Ok(b) => r.Ok? && fresh(r.value) && r.value[..] == b
            case Err(e) => r == Err(e)
  {
    var inner := BuildInnerPacket(payload, src, dst, port);
    if inner.Err? {
      return Err(inner.error);
    }
    var buf := new u8[TUNNEL_HEADER + inner.value.Length](_ => 0);
    ghost var b := buf[..];
    var h := MarshalGeneveHeader(buf, BfdGeneve(vni));
    if h.Err? {
      return Err(h.error);
    }
    CopyInto(buf, TUNNEL_HEADER, inner.value[..]);
    TwoParts(b, GeneveBytes(BfdGeneve(vni)), inner.value[..]);
    return Ok(buf);
  }
}
