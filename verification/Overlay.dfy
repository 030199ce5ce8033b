/** BFD packets in VXLAN (RFC 8971) and Geneve (RFC 9521) tunnels: the inner Ethernet, IPv4
    and UDP headers around the payload, and the tunnel header in front of them. */
module Overlay {
  import opened Bytes
  import opened Checksum

  type Quad = b: seq<u8> | |b| == 4 witness [0, 0, 0, 0]

  datatype Addr = V4(quad: Quad) | V6

  datatype OverlayError =
    | InnerPacketTooShort | InnerBadEtherType | InnerBadIpVersion | InnerBadProtocol | InnerIpv4Only
    | HeaderTooShort | InvalidFlags | VniOverflow | InvalidVersion
    | OBitNotSet | CBitSet | UnexpectedProto | VniMismatch

  const ETHERNET: seq<u8> := [0x00, 0x52, 0x02, 0x00, 0x00, 0x00, 0x02, 0x00, 0x00, 0x00, 0x00, 0x01, 0x08, 0x00]
  const INNER_OVERHEAD: nat := 42
  const TUNNEL_HEADER: nat := 8
  const BFD_PORT: u16 := 3784
  const VNI_LIMIT: int := 0x100_0000

  function Low16(n: nat): u16 {
    n % 0x1_0000
  }

  // ---- The inner packet --------------------------------------------------

  /** The IPv4 header up to its checksum: version 4, five words, Don't Fragment, TTL 255, UDP. */
  ghost function Ipv4Front(total: u16): (r: seq<u8>)
    ensures |r| == 10 && r[0] == 0x45 && r[9] == 17
  {
    [0x45, 0] + U16Bytes(total) + [0, 0, 0x40, 0, 255, 17]
  }

  ghost function Ipv4Header(total: u16, csum: u16, src: Quad, dst: Quad): (r: seq<u8>)
    ensures |r| == 20
  {
    Ipv4Front(total) + U16Bytes(csum) + (src + dst)
  }

  ghost function ChecksumFor(total: u16, src: Quad, dst: Quad): u16 {
    ALL_ONES - Fold(WordSum(Ipv4Header(total, 0, src, dst)))
  }

  ghost function UdpHeader(port: u16, len: u16): (r: seq<u8>)
    ensures |r| == 8
  {
    U16Bytes(port) + U16Bytes(BFD_PORT) + U16Bytes(len) + [0, 0]
  }

  /** The inner packet. Lengths are cut to 16 bits. */
  ghost function Inner(payload: seq<u8>, src: Quad, dst: Quad, port: u16): (r: seq<u8>)
    ensures |r| == INNER_OVERHEAD + |payload|
  {
    var total := Low16(28 + |payload|);
    ETHERNET + Ipv4Header(total, ChecksumFor(total, src, dst), src, dst) + UdpHeader(port, Low16(8 + |payload|)) + payload
  }

  datatype Stripped = Stripped(payload: seq<u8>, src: Quad, dst: Quad)

  function StripInner(b: seq<u8>): Result<Stripped, OverlayError> {
    if |b| < INNER_OVERHEAD then Err(InnerPacketTooShort)
    else if U16At(b, 12) != 0x0800 then Err(InnerBadEtherType)
    else if b[14] / 16 != 4 then Err(InnerBadIpVersion)
    else if b[23] != 17 then Err(InnerBadProtocol)
    else Ok(Stripped(b[42..], b[26..30], b[30..34]))
  }

  lemma EtherTypeIs(b: seq<u8>)
    requires |b| >= 14 && b[12] == 0x08 && b[13] == 0x00
    ensures U16At(b, 12) == 0x0800
  {
    TwoBytes(b[12..14]);
  }

  lemma TwoBytes(w: seq<u8>)
    requires |w| == 2
    ensures BigValue(w) == w[0] as int * 0x100 + w[1]
  {
  }

  /** Stripping gives back the payload and the addresses, for every payload and every port. */
  lemma InnerRoundTrip(payload: seq<u8>, src: Quad, dst: Quad, port: u16)
    ensures StripInner(Inner(payload, src, dst, port)) == Ok(Stripped(payload, src, dst))
  {
    var total := Low16(28 + |payload|);
    StripParts(ETHERNET, Ipv4Front(total), U16Bytes(ChecksumFor(total, src, dst)), src, dst,
               UdpHeader(port, Low16(8 + |payload|)), payload);
  }

  lemma StripParts(eth: seq<u8>, front: seq<u8>, csum: seq<u8>, src: Quad, dst: Quad, udp: seq<u8>, payload: seq<u8>)
    requires |eth| == 14 && eth[12] == 0x08 && eth[13] == 0 && |front| == 10 && front[0] == 0x45 && front[9] == 17
    requires |csum| == 2 && |udp| == 8
    ensures StripInner(eth + (front + csum + (src + dst)) + udp + payload) == Ok(Stripped(payload, src, dst))
  {
    var b := eth + (front + csum + (src + dst)) + udp + payload;
    EtherTypeIs(b);
    assert b[14] == front[0] && b[23] == front[9];
    assert b[42..] == payload && b[26..30] == src && b[30..34] == dst;
  }

  /** The inner IPv4 header sums up to all ones, so any receiver's check of it succeeds. */
  lemma InnerHeaderSums(payload: seq<u8>, src: Quad, dst: Quad, port: u16)
    ensures Fold(WordSum(Inner(payload, src, dst, port)[14..34])) == ALL_ONES
  {
    var total := Low16(28 + |payload|);
    var c := ChecksumFor(total, src, dst);
    ChecksumCompletes(Ipv4Front(total), 5, src + dst);
    MiddlePart(ETHERNET, Ipv4Header(total, c, src, dst), UdpHeader(port, Low16(8 + |payload|)), payload);
  }

  lemma MiddlePart(a: seq<u8>, b: seq<u8>, c: seq<u8>, d: seq<u8>)
    requires |a| == 14 && |b| == 20
    ensures (a + b + c + d)[14..34] == b
  {
  }

  // ---- VXLAN -------------------------------------------------------------

  /** The VNI in the upper 24 bits of a word. */
  ghost function VniWord(vni: u32): seq<u8>
    requires vni < VNI_LIMIT
  {
    U32Bytes(vni * 0x100)
  }

  function VniOf(b: seq<u8>): u32
    requires |b| >= TUNNEL_HEADER
  {
    U32At(b, 4) / 0x100
  }

  lemma VniReadBack(b: seq<u8>, vni: u32)
    requires |b| >= TUNNEL_HEADER && vni < VNI_LIMIT && b[4..8] == VniWord(vni)
    ensures VniOf(b) == vni
  {
    VniQuotient(vni);
  }

  lemma VniQuotient(vni: nat)
    ensures vni * 0x100 / 0x100 == vni
  {
  }

  ghost function VxlanHeader(vni: u32): (r: seq<u8>)
    requires vni < VNI_LIMIT
    ensures |r| == TUNNEL_HEADER
  {
    [0x08, 0, 0, 0] + VniWord(vni)
  }

  ghost function BuildVxlan(payload: seq<u8>, vni: u32, src: Addr, dst: Addr, port: u16): Result<seq<u8>, OverlayError> {
    if !src.V4? || !dst.V4? then Err(InnerIpv4Only)
    else if vni >= VNI_LIMIT then Err(VniOverflow)
    else Ok(VxlanHeader(vni) + Inner(payload, src.quad, dst.quad, port))
  }

  datatype VxlanParsed = VxlanParsed(vni: u32, inner: Stripped)

  function ParseVxlan(b: seq<u8>): Result<VxlanParsed, OverlayError> {
    if |b| < TUNNEL_HEADER + INNER_OVERHEAD then Err(InnerPacketTooShort)
    else if b[0] / 8 % 2 == 0 then Err(InvalidFlags)
    else match StripInner(b[TUNNEL_HEADER..])
      case Err(e) => Err(e)
      case Ok(s) => Ok(VxlanParsed(VniOf(b), s))
  }

  /** Every packet that can be built parses to exactly what went in; and a packet can be
      built exactly for two IPv4 addresses and a 24-bit VNI. */
  lemma VxlanRoundTrip(payload: seq<u8>, vni: u32, src: Addr, dst: Addr, port: u16)
    ensures var r := BuildVxlan(payload, vni, src, dst, port);
            && (r.Ok? <==> src.V4? && dst.V4? && vni < VNI_LIMIT)
            && (r.Ok? ==> ParseVxlan(r.value) == Ok(VxlanParsed(vni, Stripped(payload, src.quad, dst.quad))))
  {
    if src.V4? && dst.V4? && vni < VNI_LIMIT {
      var h, i := VxlanHeader(vni), Inner(payload, src.quad, dst.quad, port);
      InnerRoundTrip(payload, src.quad, dst.quad, port);
      assert (h + i)[TUNNEL_HEADER..] == i && (h + i)[4..8] == VniWord(vni);
      VniReadBack(h + i, vni);
    }
  }

  // ---- Geneve ------------------------------------------------------------

  const GENEVE_ETHERNET: u16 := 0x6558

  datatype GeneveHeader = GeneveHeader(version: u8, optLen: u8, oBit: bool, cBit: bool, proto: u16, vni: u32)

  function GeneveFirst(h: GeneveHeader): u8 {
    h.version % 4 * 64 + h.optLen % 64
  }

  function GeneveSecond(h: GeneveHeader): u8 {
    (if h.oBit then 0x80 else 0) + (if h.cBit then 0x40 else 0)
  }

  ghost function GeneveBytes(h: GeneveHeader): (r: seq<u8>)
    requires h.vni < VNI_LIMIT
    ensures |r| == TUNNEL_HEADER
  {
    [GeneveFirst(h), GeneveSecond(h)] + U16Bytes(h.proto) + VniWord(h.vni)
  }

  function ParseGeneveHeader(b: seq<u8>): Result<GeneveHeader, OverlayError> {
    if |b| < TUNNEL_HEADER then Err(HeaderTooShort)
    else if b[0] / 64 != 0 then Err(InvalidVersion)
    else Ok(GeneveHeader(0, b[0] % 64, b[1] / 0x80 == 1, b[1] / 0x40 % 2 == 1, U16At(b, 2), VniOf(b)))
  }

  lemma GeneveFlags(h: GeneveHeader)
    ensures (GeneveSecond(h) / 0x80 == 1) == h.oBit && (GeneveSecond(h) / 0x40 % 2 == 1) == h.cBit
    ensures GeneveFirst(h) / 64 == h.version % 4 && GeneveFirst(h) % 64 == h.optLen % 64
  {
  }

  /** The header survives exactly if its version is zero modulo the two bits it gets, and
      its option length comes back modulo the six bits it gets. */
  lemma GeneveHeaderRoundTrip(h: GeneveHeader, tail: seq<u8>)
    requires h.vni < VNI_LIMIT
    ensures ParseGeneveHeader(GeneveBytes(h) + tail)
            == if h.version % 4 == 0 then Ok(h.(version := 0, optLen := h.optLen % 64)) else Err(InvalidVersion)
  {
    var b := GeneveBytes(h) + tail;
    assert b[0] == GeneveFirst(h) && b[1] == GeneveSecond(h);
    assert b[2..4] == U16Bytes(h.proto) && b[4..8] == VniWord(h.vni);
    GeneveFlags(h);
    VniReadBack(b, h.vni);
  }

  function BfdGeneve(vni: u32): GeneveHeader {
    GeneveHeader(0, 0, true, false, GENEVE_ETHERNET, vni)
  }

  ghost function BuildGeneve(payload: seq<u8>, vni: u32, src: Addr, dst: Addr, port: u16): Result<seq<u8>, OverlayError> {
    if !src.V4? || !dst.V4? then Err(InnerIpv4Only)
    else if vni >= VNI_LIMIT then Err(VniOverflow)
    else Ok(GeneveBytes(BfdGeneve(vni)) + Inner(payload, src.quad, dst.quad, port))
  }

  function GeneveTotal(h: GeneveHeader): nat {
    TUNNEL_HEADER + h.optLen as int * 4
  }

  datatype GeneveParsed = GeneveParsed(header: GeneveHeader, inner: Stripped)

  function ParseGeneve(b: seq<u8>): Result<GeneveParsed, OverlayError> {
    match ParseGeneveHeader(b)
    case Err(e) => Err(e)
    case Ok(h) =>
      if |b| < GeneveTotal(h) + INNER_OVERHEAD then Err(InnerPacketTooShort)
      else match StripInner(b[GeneveTotal(h)..])
        case Err(e) => Err(e)
        case Ok(s) => Ok(GeneveParsed(h, s))
  }

  /** A packet with n words of options put between its header and the inner packet. */
  ghost function WithOptions(h: GeneveHeader, n: u8, options: seq<u8>, inner: seq<u8>): seq<u8>
    requires h.vni < VNI_LIMIT
  {
    GeneveBytes(h.(optLen := n)) + options + inner
  }

  /** Options, however many a header can announce and whatever they hold, never change
      what is parsed behind them. */
  lemma OptionsAreSkipped(payload: seq<u8>, vni: u32, src: Quad, dst: Quad, port: u16, n: u8, options: seq<u8>)
    requires vni < VNI_LIMIT && n < 64 && |options| == n as int * 4
    ensures ParseGeneve(WithOptions(BfdGeneve(vni), n, options, Inner(payload, src, dst, port)))
            == Ok(GeneveParsed(BfdGeneve(vni).(optLen := n), Stripped(payload, src, dst)))
  {
    InnerRoundTrip(payload, src, dst, port);
    SkipOptions(BfdGeneve(vni).(optLen := n), options, Inner(payload, src, dst, port));
  }

  lemma SkipOptions(h: GeneveHeader, options: seq<u8>, inner: seq<u8>)
    requires h.version == 0 && h.optLen < 64 && h.vni < VNI_LIMIT && TUNNEL_HEADER + |options| == GeneveTotal(h)
    requires StripInner(inner).Ok?
    ensures ParseGeneve(GeneveBytes(h) + options + inner) == Ok(GeneveParsed(h, StripInner(inner).value))
  {
    GeneveHeaderRoundTrip(h, options + inner);
    SixBitLength(h);
    BehindOptions(GeneveBytes(h), options, inner);
    ParseBehind(GeneveBytes(h) + options + inner, h, inner);
  }

  lemma SixBitLength(h: GeneveHeader)
    requires h.version == 0 && h.optLen < 64
    ensures h.version % 4 == 0 && h.(version := 0, optLen := h.optLen % 64) == h
  {
  }

  lemma BehindOptions(header: seq<u8>, options: seq<u8>, inner: seq<u8>)
    ensures header + options + inner == header + (options + inner)
    ensures (header + options + inner)[|header| + |options|..] == inner
  {
  }

  lemma ParseBehind(b: seq<u8>, h: GeneveHeader, inner: seq<u8>)
    requires ParseGeneveHeader(b) == Ok(h) && |b| >= GeneveTotal(h) + INNER_OVERHEAD && b[GeneveTotal(h)..] == inner
    requires StripInner(inner).Ok?
    ensures ParseGeneve(b) == Ok(GeneveParsed(h, StripInner(inner).value))
  {
  }

  lemma GeneveRoundTrip(payload: seq<u8>, vni: u32, src: Addr, dst: Addr, port: u16)
    ensures var r := BuildGeneve(payload, vni, src, dst, port);
            && (r.Ok? <==> src.V4? && dst.V4? && vni < VNI_LIMIT)
            && (r.Ok? ==> ParseGeneve(r.value) == Ok(GeneveParsed(BfdGeneve(vni), Stripped(payload, src.quad, dst.quad))))
  {
    if src.V4? && dst.V4? && vni < VNI_LIMIT {
      var i := Inner(payload, src.quad, dst.quad, port);
      assert GeneveBytes(BfdGeneve(vni)) + [] + i == GeneveBytes(BfdGeneve(vni)) + i;
      assert BfdGeneve(vni).(optLen := 0) == BfdGeneve(vni);
      OptionsAreSkipped(payload, vni, src.quad, dst.quad, port, 0, []);
    }
  }

  /** validateGeneveHeader, on the receiving tunnel endpoint of one VNI. */
  function ValidateGeneve(h: GeneveHeader, pktLen: nat, vni: u32): Option<OverlayError> {
    if pktLen < GeneveTotal(h) + INNER_OVERHEAD then Some(InnerPacketTooShort)
    else if !h.oBit then Some(OBitNotSet)
    else if h.cBit then Some(CBitSet)
    else if h.proto != GENEVE_ETHERNET then Some(UnexpectedProto)
    else if h.vni != vni then Some(VniMismatch)
    else None
  }

  /** The receive path of a Geneve endpoint. */
  function ReceiveGeneve(b: seq<u8>, vni: u32): Result<seq<u8>, OverlayError> {
    match ParseGeneveHeader(b)
    case Err(e) => Err(e)
    case Ok(h) =>
      match ValidateGeneve(h, |b|, vni)
      case Some(e) => Err(e)
      case None => match StripInner(b[GeneveTotal(h)..]) case Err(e) => Err(e) case Ok(s) => Ok(s.payload)
  }

  /** An endpoint takes a built packet exactly if it was built for its own VNI. */
  lemma EndpointTakesOwnVni(payload: seq<u8>, vni: u32, mine: u32, src: Quad, dst: Quad, port: u16)
    requires vni < VNI_LIMIT
    ensures ReceiveGeneve(BuildGeneve(payload, vni, V4(src), V4(dst), port).value, mine)
            == if vni == mine then Ok(payload) else Err(VniMismatch)
  {
    var i := Inner(payload, src, dst, port);
    GeneveHeaderRoundTrip(BfdGeneve(vni), i);
    InnerRoundTrip(payload, src, dst, port);
    assert (GeneveBytes(BfdGeneve(vni)) + i)[TUNNEL_HEADER..] == i;
  }

  // ---- Byte layouts ------------------------------------------------------

  function Pair(high: int, low: int): int {
    high * 0x100 + low
  }

  lemma HalfIs(b: seq<u8>, i: nat, x: u16)
    requires i + 2 <= |b| && b[i..i + 2] == U16Bytes(x)
    ensures Pair(b[i], b[i + 1]) == x
  {
    WordSizes();
    TwoBytes(b[i..i + 2]);
  }

  /** The inner packet byte for byte: the fixed MAC addresses and the type of IPv4; an IPv4
      header of five words with the total length, Don't Fragment, time to live 255 and UDP, then
      the addresses; the ports, 3784 as the destination, the length and no checksum; the payload. */
  lemma InnerLayout(payload: seq<u8>, src: Quad, dst: Quad, port: u16)
    ensures var b := Inner(payload, src, dst, port);
            && b[..14] == [0x00, 0x52, 0x02, 0x00, 0x00, 0x00, 0x02, 0x00, 0x00, 0x00, 0x00, 0x01, 0x08, 0x00]
            && b[14] == 0x45 && b[15] == 0 && Pair(b[16], b[17]) == (28 + |payload|) % 0x1_0000
            && b[18] == 0 && b[19] == 0 && b[20] == 0x40 && b[21] == 0 && b[22] == 255 && b[23] == 17
            && b[26..30] == src && b[30..34] == dst
    ensures var b := Inner(payload, src, dst, port);
            && Pair(b[34], b[35]) == port && Pair(b[36], b[37]) == 3784
            && Pair(b[38], b[39]) == (8 + |payload|) % 0x1_0000 && b[40] == 0 && b[41] == 0
            && b[42..] == payload
  {
    var total := Low16(28 + |payload|);
    var csum := U16Bytes(ChecksumFor(total, src, dst));
    Ipv4Layout(total, csum, src, dst);
    UdpLayout(port, Low16(8 + |payload|));
    var ip, udp := Ipv4Front(total) + csum + (src + dst), UdpHeader(port, Low16(8 + |payload|));
    InnerParts(ip, udp, payload);
    assert Inner(payload, src, dst, port) == ETHERNET + ip + udp + payload;
  }

  lemma InnerParts(ip: seq<u8>, udp: seq<u8>, payload: seq<u8>)
    requires |ip| == 20 && |udp| == 8
    ensures var b := ETHERNET + ip + udp + payload;
            && b[..14] == ETHERNET && b[42..] == payload
            && (forall i :: 0 <= i < 20 ==> b[14 + i] == ip[i]) && b[26..30] == ip[12..16] && b[30..34] == ip[16..20]
            && (forall i :: 0 <= i < 8 ==> b[34 + i] == udp[i])
  {
  }

  lemma Ipv4Layout(total: u16, csum: seq<u8>, src: Quad, dst: Quad)
    requires |csum| == 2
    ensures var b := Ipv4Front(total) + csum + (src + dst);
            && b[0] == 0x45 && b[1] == 0 && Pair(b[2], b[3]) == total
            && b[4] == 0 && b[5] == 0 && b[6] == 0x40 && b[7] == 0 && b[8] == 255 && b[9] == 17
            && b[12..16] == src && b[16..20] == dst
  {
    HalfIs(Ipv4Front(total), 2, total);
  }

  lemma UdpLayout(port: u16, len: u16)
    ensures var b := UdpHeader(port, len);
            && Pair(b[0], b[1]) == port && Pair(b[2], b[3]) == 3784 && Pair(b[4], b[5]) == len && b[6] == 0 && b[7] == 0
  {
    HalfIs(UdpHeader(port, len), 0, port);
    HalfIs(UdpHeader(port, len), 2, BFD_PORT);
    HalfIs(UdpHeader(port, len), 4, len);
  }

  function Triple(a: int, b: int, c: int): int {
    a * 0x1_0000 + b * 0x100 + c
  }

  lemma FourBytes(w: seq<u8>)
    requires |w| == 4
    ensures BigValue(w) == Triple(w[0], w[1], w[2]) * 0x100 + w[3]
  {
    assert w[..3][..2] == w[..2] && w[..2][..1] == w[..1];
    assert BigValue(w[..2]) == BigValue(w[..1]) * 0x100 + w[1];
    assert BigValue(w[..3]) == BigValue(w[..2]) * 0x100 + w[2];
  }

  /** The VNI is bytes 4 to 6; byte 7 is not part of it. */
  lemma VniIs(b: seq<u8>)
    requires |b| >= 8
    ensures VniOf(b) == Triple(b[4], b[5], b[6])
  {
    FourBytes(b[4..8]);
  }

  lemma VniWordIs(vni: u32)
    requires vni < VNI_LIMIT
    ensures var w := VniWord(vni); |w| == 4 && Triple(w[0], w[1], w[2]) == vni && w[3] == 0
  {
    WordSizes();
    FourBytes(VniWord(vni));
  }

  /** The tunnel headers byte for byte. VXLAN: the I bit, the VNI, zeros. Geneve: version 0, no
      options, the O bit alone, Ethernet, the VNI. */
  lemma TunnelLayout(payload: seq<u8>, vni: u32, src: Quad, dst: Quad, port: u16)
    requires vni < 0x100_0000
    ensures var v := BuildVxlan(payload, vni, V4(src), V4(dst), port);
            && v.Ok? && v.value[8..] == Inner(payload, src, dst, port)
            && v.value[..4] == [0x08, 0, 0, 0] && Triple(v.value[4], v.value[5], v.value[6]) == vni && v.value[7] == 0
    ensures var g := BuildGeneve(payload, vni, V4(src), V4(dst), port);
            && g.Ok? && g.value[8..] == Inner(payload, src, dst, port)
            && g.value[..4] == [0, 0x80, 0x65, 0x58] && Triple(g.value[4], g.value[5], g.value[6]) == vni && g.value[7] == 0
  {
    VniWordIs(vni);
    WordSizes();
    TwoBytes(U16Bytes(GENEVE_ETHERNET));
    var i := Inner(payload, src, dst, port);
    HeaderBefore(VxlanHeader(vni), i);
    HeaderBefore(GeneveBytes(BfdGeneve(vni)), i);
  }

  lemma HeaderBefore(h: seq<u8>, i: seq<u8>)
    requires |h| == 8
    ensures (h + i)[8..] == i && (h + i)[..4] == h[..4] && forall k :: 0 <= k < 8 ==> (h + i)[k] == h[k]
  {
  }

  /** What the parsers accept, and where they find it: an inner packet needs 42 bytes, the type of
      IPv4, version 4 and UDP; a VXLAN packet the I bit in front of it; a Geneve packet version 0
      and the announced words of options. */
  lemma ParsedIff(b: seq<u8>)
    ensures StripInner(b).Ok? <==> |b| >= 42 && b[12] == 0x08 && b[13] == 0x00 && b[14] / 16 == 4 && b[23] == 17
    ensures StripInner(b).Ok? ==> StripInner(b).value == Stripped(b[42..], b[26..30], b[30..34])
    ensures ParseVxlan(b).Ok? <==> |b| >= 50 && b[0] / 8 % 2 == 1 && StripInner(b[8..]).Ok?
    ensures ParseVxlan(b).Ok? ==>
              ParseVxlan(b).value.vni == Triple(b[4], b[5], b[6]) && Ok(ParseVxlan(b).value.inner) == StripInner(b[8..])
    ensures ParseGeneve(b).Ok? <==>
              |b| >= 8 && b[0] < 64 && |b| >= 50 + 4 * Pair(0, b[0]) && StripInner(b[8 + 4 * Pair(0, b[0])..]).Ok?
  {
    if |b| >= 14 {
      TwoBytes(b[12..14]);
    }
    if |b| >= 8 {
      VniIs(b);
    }
  }

  lemma ParsedGeneveIs(b: seq<u8>)
    requires ParseGeneve(b).Ok?
    ensures var g := ParseGeneve(b).value;
            && g.header.optLen == b[0] && g.header.oBit == (b[1] >= 0x80) && g.header.cBit == (b[1] / 0x40 % 2 == 1)
            && g.header.proto == Pair(b[2], b[3]) && g.header.vni == Triple(b[4], b[5], b[6])
            && Ok(g.inner) == StripInner(b[8 + 4 * Pair(0, b[0])..])
  {
    VniIs(b);
    TwoBytes(b[2..4]);
  }

  /** The refusals of a Geneve endpoint are true. */
  lemma GeneveRefusalsAreTrue(h: GeneveHeader, pktLen: nat, vni: u32)
    ensures match ValidateGeneve(h, pktLen, vni)
            case None => pktLen >= 50 + 4 * Pair(0, h.optLen) && h.oBit && !h.cBit && h.proto == 0x6558 && h.vni == vni
            case Some(InnerPacketTooShort) => pktLen < 50 + 4 * Pair(0, h.optLen)
            case Some(OBitNotSet) => !h.oBit
            case Some(CBitSet) => h.cBit
            case Some(UnexpectedProto) => h.proto != 0x6558
            case Some(VniMismatch) => h.vni != vni
            case Some(_) => false
  {
  }
}
