/** The BFD Control packet of sections 4.1-4.4 of RFC 5880: its bytes, the seven
    validation steps of section 6.8.6, and the two round trips. */
module Codec {
  import opened Bytes
  import opened Fsm

  const HEADER_SIZE: nat := 24
  const MAX_PACKET_SIZE: nat := 64
  const VERSION: u8 := 1

  const AUTH_SIMPLE: u8 := 1
  const AUTH_MD5: u8 := 2
  const AUTH_MET_MD5: u8 := 3
  const AUTH_SHA1: u8 := 4
  const AUTH_MET_SHA1: u8 := 5

  const AUTH_LEN_MD5: u8 := 24
  const AUTH_LEN_SHA1: u8 := 28

  datatype AuthSection = AuthSection(
    authType: u8, len: u8, keyId: u8, authData: seq<u8>, seqNum: u32, digest: seq<u8>)

  datatype ControlPacket = ControlPacket(
    version: u8, diag: u8, state: State,
    poll: bool, final: bool, cpi: bool, authPresent: bool, demand: bool, multipoint: bool,
    detectMult: u8, length: u8,
    my: u32, your: u32,
    desiredMinTx: u32, requiredMinRx: u32, requiredMinEchoRx: u32,
    auth: Option<AuthSection>)

  datatype CodecError =
    | PacketTooShort | InvalidVersion | InvalidLength | LengthExceedsPayload
    | ZeroDetectMult | MultipointSet | ZeroMyDiscriminator | ZeroYourDiscriminator
    | AuthSectionTruncated | InvalidAuthType | BufTooSmall

  // ---- Encoding ----------------------------------------------------------

  function StateCode(s: State): (r: u8)
    ensures r < 4
  {
    match s case AdminDown => 0 case Down => 1 case Init => 2 case Up => 3
  }

  function StateOfCode(c: u8): State
    requires c < 4
  {
    if c == 0 then AdminDown else if c == 1 then Down else if c == 2 then Init else Up
  }

  function VersionDiagByte(p: ControlPacket): u8 {
    p.version % 8 * 32 + p.diag % 32
  }

  /** The P, F, C, A, D and M flags, in wire order. */
  function Flags(p: ControlPacket): (r: seq<bool>)
    ensures |r| == 6
  {
    [p.poll, p.final, p.cpi, p.authPresent, p.demand, p.multipoint]
  }

  /** State in the top two bits, the flags below. */
  function FlagByte(p: ControlPacket): u8 {
    SixBits();
    StateCode(p.state) * 64 + BitsValue(Flags(p))
  }

  predicate HasSection(p: ControlPacket) {
    p.authPresent && p.auth.Some?
  }

  function TotalLen(p: ControlPacket): nat {
    HEADER_SIZE + if HasSection(p) then p.auth.value.len else 0
  }

  /** Four bytes and five 32-bit words. */
  function Layout(b0: u8, b1: u8, b2: u8, b3: u8, my: seq<u8>, your: seq<u8>, tx: seq<u8>, rx: seq<u8>, echo: seq<u8>): seq<u8> {
    [b0, b1, b2, b3] + my + your + tx + rx + echo
  }

  ghost function Header(p: ControlPacket): (r: seq<u8>)
    ensures |r| == HEADER_SIZE
  {
    Layout(VersionDiagByte(p), FlagByte(p), p.detectMult, TotalLen(p) % 256,
           U32Bytes(p.my), U32Bytes(p.your),
           U32Bytes(p.desiredMinTx), U32Bytes(p.requiredMinRx), U32Bytes(p.requiredMinEchoRx))
  }

  predicate IsHashType(t: u8) {
    AUTH_MD5 <= t <= AUTH_MET_SHA1
  }

  function DigestSize(t: u8): nat {
    if t == AUTH_MD5 || t == AUTH_MET_MD5 then 16 else 20
  }

  /** What an authentication section contributes to the packet. */
  ghost function SectionBytes(a: AuthSection): seq<u8> {
    if a.authType == AUTH_SIMPLE then
      [a.authType, a.len, a.keyId] + a.authData
    else
      [a.authType, a.len, a.keyId, 0] + U32Bytes(a.seqNum) + a.digest
  }

  ghost function Encode(p: ControlPacket): seq<u8> {
    Header(p) + if HasSection(p) then SectionBytes(p.auth.value) else []
  }

  /** A section whose fields agree with its type, and whose unused fields are empty. */
  predicate WellFormedSection(a: AuthSection) {
    if a.authType == AUTH_SIMPLE then
      1 <= |a.authData| <= 16 && a.len == |a.authData| + 3 && a.seqNum == 0 && a.digest == []
    else
      IsHashType(a.authType) && |a.digest| == DigestSize(a.authType)
      && a.len == |a.digest| + 8 && a.authData == []
  }

  predicate WellFormedAuth(p: ControlPacket) {
    p.authPresent == p.auth.Some? && (p.auth.Some? ==> WellFormedSection(p.auth.value))
  }

  /** What steps 1 and 4-7 of the reception procedure ask of the header fields. */
  predicate ValidHeader(p: ControlPacket) {
    && p.version == VERSION && p.detectMult != 0 && !p.multipoint && p.my != 0
    && (p.your != 0 || p.state == Down || p.state == AdminDown)
  }

  predicate WellFormed(p: ControlPacket) {
    ValidHeader(p) && p.diag < 32 && WellFormedAuth(p)
  }

  // ---- Decoding ----------------------------------------------------------

  /** The fields of the first 24 bytes, before any validation. */
  ghost function DecodeHeader(b: seq<u8>): ControlPacket
    requires |b| >= HEADER_SIZE
  {
    SixBits();
    var f := Bits(b[1] % 64, 6);
    ControlPacket(
      b[0] / 32, b[0] % 32, StateOfCode(b[1] / 64), f[0], f[1], f[2], f[3], f[4], f[5],
      b[2], b[3],
      U32At(b, 4), U32At(b, 8), U32At(b, 12), U32At(b, 16), U32At(b, 20),
      None)
  }

  function DecodeSection(s: seq<u8>): Result<AuthSection, CodecError> {
    if |s| < 2 then Err(AuthSectionTruncated)
    else
      var t, len := s[0], s[1];
      if len > |s| + HEADER_SIZE then Err(AuthSectionTruncated)
      else if t == AUTH_SIMPLE then DecodePassword(s)
      else if t == AUTH_MD5 || t == AUTH_MET_MD5 then DecodeHash(s, AUTH_LEN_MD5, 16)
      else if t == AUTH_SHA1 || t == AUTH_MET_SHA1 then DecodeHash(s, AUTH_LEN_SHA1, 20)
      else Err(InvalidAuthType)
  }

  function DecodePassword(s: seq<u8>): Result<AuthSection, CodecError>
    requires |s| >= 2
  {
    var len := s[1];
    if len < 4 || |s| < len || len - 3 > 16 then Err(AuthSectionTruncated)
    else Ok(AuthSection(s[0], len, s[2], s[3..len], 0, []))
  }

  function DecodeHash(s: seq<u8>, expected: u8, size: nat): Result<AuthSection, CodecError>
    requires |s| >= 2 && expected == size + 8
  {
    if s[1] != expected then Err(InvalidLength)
    else if |s| < expected then Err(AuthSectionTruncated)
    else Ok(AuthSection(s[0], s[1], s[2], [], U32At(s, 4), s[8..8 + size]))
  }

  /** Steps 1-5 of the reception procedure, on a buffer of n bytes. */
  function CheckFixedPart(p: ControlPacket, n: nat): Option<CodecError> {
    if p.version != VERSION then Some(InvalidVersion)
    else if p.length < (if p.authPresent then 26 else 24) then Some(InvalidLength)
    else if p.length > n then Some(LengthExceedsPayload)
    else if p.detectMult == 0 then Some(ZeroDetectMult)
    else if p.multipoint then Some(MultipointSet)
    else None
  }

  /** Steps 6 and 7. */
  function CheckDiscriminators(p: ControlPacket): Option<CodecError> {
    if p.my == 0 then Some(ZeroMyDiscriminator)
    else if p.your == 0 && p.state != Down && p.state != AdminDown then Some(ZeroYourDiscriminator)
    else None
  }

  ghost function CheckedHeader(b: seq<u8>): Result<ControlPacket, CodecError> {
    if |b| < HEADER_SIZE then Err(PacketTooShort)
    else
      var p := DecodeHeader(b);
      match CheckFixedPart(p, |b|)
      case Some(e) => Err(e)
      case None => match CheckDiscriminators(p) case Some(e) => Err(e) case None => Ok(p)
  }

  function AddSection(p: ControlPacket, b: seq<u8>): Result<ControlPacket, CodecError>
    requires p.authPresent ==> HEADER_SIZE <= p.length <= |b|
  {
    if !p.authPresent then Ok(p)
    else match DecodeSection(b[HEADER_SIZE..p.length])
      case Err(e) => Err(e)
      case Ok(a) => Ok(p.(auth := Some(a)))
  }

  /** UnmarshalControlPacket: the header, validation steps 1-7, then the section. */
  ghost function Decode(b: seq<u8>): Result<ControlPacket, CodecError> {
    match CheckedHeader(b)
    case Err(e) => Err(e)
    case Ok(p) => AddSection(p, b)
  }

  // ---- Decode after Encode -----------------------------------------------

  lemma FlagsRoundTrip(p: ControlPacket)
    ensures Pow2(6) == 64
    ensures StateOfCode(FlagByte(p) / 64) == p.state
    ensures Bits(FlagByte(p) % 64, 6) == Flags(p)
  {
    SixBits();
    JoinSplit(StateCode(p.state), BitsValue(Flags(p)));
    BitsValueInjective(Bits(FlagByte(p) % 64, 6), Flags(p));
  }

  lemma JoinSplit(q: nat, r: nat)
    requires r < 64
    ensures (q * 64 + r) / 64 == q && (q * 64 + r) % 64 == r
  {
  }

  /** The header fields of an encoded packet, whatever follows the header. */
  lemma HeaderRoundTrip(p: ControlPacket, rest: seq<u8>)
    ensures DecodeHeader(Header(p) + rest) ==
            p.(version := p.version % 8, diag := p.diag % 32, length := TotalLen(p) % 256, auth := None)
  {
    var b := Header(p) + rest;
    assert b[4..8] == U32Bytes(p.my);
    assert b[8..12] == U32Bytes(p.your);
    assert b[12..16] == U32Bytes(p.desiredMinTx);
    assert b[16..20] == U32Bytes(p.requiredMinRx);
    assert b[20..24] == U32Bytes(p.requiredMinEchoRx);
    FlagsRoundTrip(p);
  }

  lemma SectionRoundTrip(a: AuthSection)
    requires WellFormedSection(a)
    ensures |SectionBytes(a)| == a.len
    ensures DecodeSection(SectionBytes(a)) == Ok(a)
  {
    var s := SectionBytes(a);
    if a.authType == AUTH_SIMPLE {
      assert s[3..a.len] == a.authData;
    } else {
      var h4 := [a.authType, a.len, a.keyId, 0];
      assert s == h4 + U32Bytes(a.seqNum) + a.digest;
      assert s[4..8] == U32Bytes(a.seqNum);
      assert s[8..8 + |a.digest|] == a.digest;
    }
  }

  ghost function Section(p: ControlPacket): seq<u8> {
    if HasSection(p) then SectionBytes(p.auth.value) else []
  }

  /** Where the two parts of an encoded packet lie in a buffer that starts with it. */
  lemma EncodedParts(p: ControlPacket, tail: seq<u8>)
    requires WellFormedAuth(p)
    ensures |Encode(p)| == TotalLen(p) <= 52
    ensures var b := Encode(p) + tail;
            && b[HEADER_SIZE..TotalLen(p)] == Section(p)
            && DecodeHeader(b) ==
               p.(version := p.version % 8, diag := p.diag % 32, length := TotalLen(p), auth := None)
  {
    if HasSection(p) {
      SectionRoundTrip(p.auth.value);
    }
    assert Encode(p) + tail == Header(p) + (Section(p) + tail);
    HeaderRoundTrip(p, Section(p) + tail);
  }

  lemma DecodeFromParts(b: seq<u8>, p: ControlPacket, h: ControlPacket)
    requires WellFormedAuth(p) && h == p.(version := p.version % 8, diag := p.diag % 32, length := TotalLen(p), auth := None)
    requires HEADER_SIZE <= TotalLen(p) <= |b| && DecodeHeader(b) == h && b[HEADER_SIZE..TotalLen(p)] == Section(p)
    ensures Decode(b).Ok? <==> ValidHeader(h)
    ensures Decode(b).Ok? ==> Decode(b).value == h.(auth := p.auth)
  {
    if HasSection(p) {
      SectionRoundTrip(p.auth.value);
    }
  }

  /** Decoding what was encoded, followed by any bytes at all, gives the packet back
      with its Length filled in. */
  lemma RoundTrip(p: ControlPacket, tail: seq<u8>)
    requires WellFormed(p)
    ensures |Encode(p)| == TotalLen(p) <= 52
    ensures Decode(Encode(p) + tail) == Ok(p.(length := TotalLen(p)))
  {
    EncodedParts(p, tail);
    DecodeFromParts(Encode(p) + tail, p, p.(length := TotalLen(p), auth := None));
  }

  /** Among packets that can be laid out, exactly those with a valid header survive
      the decoder: the encoder adds no check of its own. */
  lemma EncodedAcceptedIff(p: ControlPacket, tail: seq<u8>)
    requires WellFormedAuth(p)
    ensures Decode(Encode(p) + tail).Ok? <==> ValidHeader(p.(version := p.version % 8))
  {
    EncodedParts(p, tail);
    DecodeFromParts(Encode(p) + tail, p,
                    p.(version := p.version % 8, diag := p.diag % 32, length := TotalLen(p), auth := None));
  }

  /** A packet flagged as authenticated but carrying no section never decodes. */
  lemma FlagWithoutSection(p: ControlPacket, tail: seq<u8>)
    requires p.authPresent && p.auth.None?
    ensures Decode(Encode(p) + tail).Err?
  {
    assert Encode(p) + tail == Header(p) + tail;
    HeaderRoundTrip(p, tail);
  }

  // ---- Encode after Decode -----------------------------------------------

  lemma FlagsRebuilt(b: seq<u8>)
    requires |b| >= HEADER_SIZE
    ensures FlagByte(DecodeHeader(b)) == b[1]
    ensures VersionDiagByte(DecodeHeader(b)) == b[0]
  {
    var p := DecodeHeader(b);
    SixBits();
    assert Flags(p) == Bits(b[1] % 64, 6);
    assert StateCode(p.state) == b[1] / 64;
  }

  /** Everything in the header except the Length byte is rebuilt from the fields. */
  lemma HeaderRebuilt(b: seq<u8>, a: Option<AuthSection>)
    requires |b| >= HEADER_SIZE
    ensures var p := DecodeHeader(b).(auth := a);
            Header(p) == b[..HEADER_SIZE][3 := TotalLen(p) % 256]
  {
    var p := DecodeHeader(b).(auth := a);
    FlagsRebuilt(b);
    WordsRebuilt(b);
    assert Flags(p) == Flags(DecodeHeader(b));
    HeaderFromParts(b, p);
  }

  lemma WordsRebuilt(b: seq<u8>)
    requires |b| >= HEADER_SIZE
    ensures U32Bytes(U32At(b, 4)) == b[4..8] && U32Bytes(U32At(b, 8)) == b[8..12]
    ensures U32Bytes(U32At(b, 12)) == b[12..16] && U32Bytes(U32At(b, 16)) == b[16..20]
    ensures U32Bytes(U32At(b, 20)) == b[20..24]
  {
    U32WriteBack(b, 4);
    U32WriteBack(b, 8);
    U32WriteBack(b, 12);
    U32WriteBack(b, 16);
    U32WriteBack(b, 20);
  }

  lemma HeaderFromParts(b: seq<u8>, p: ControlPacket)
    requires |b| >= HEADER_SIZE && VersionDiagByte(p) == b[0] && FlagByte(p) == b[1] && p.detectMult == b[2]
    requires U32Bytes(p.my) == b[4..8] && U32Bytes(p.your) == b[8..12] && U32Bytes(p.desiredMinTx) == b[12..16]
    requires U32Bytes(p.requiredMinRx) == b[16..20] && U32Bytes(p.requiredMinEchoRx) == b[20..24]
    ensures Header(p) == b[..HEADER_SIZE][3 := TotalLen(p) % 256]
  {
  }

  lemma HashSectionRebuilt(s: seq<u8>, size: nat)
    requires |s| >= 2 && (size == 16 || size == 20) && DecodeHash(s, size + 8, size).Ok?
    ensures var a := DecodeHash(s, size + 8, size).value;
            [a.authType, a.len, a.keyId, 0] + U32Bytes(a.seqNum) + a.digest == s[..a.len][3 := 0]
  {
    U32WriteBack(s, 4);
    var h := [s[0], s[1], s[2], 0] + s[4..8] + s[8..8 + size];
    assert h == s[..8 + size][3 := 0];
  }

  lemma SectionRebuilt(s: seq<u8>)
    requires DecodeSection(s).Ok?
    ensures var a := DecodeSection(s).value;
            && WellFormedSection(a)
            && a.len <= |s|
            && SectionBytes(a) == if a.authType == AUTH_SIMPLE then s[..a.len] else s[..a.len][3 := 0]
  {
    var a := DecodeSection(s).value;
    if a.authType == AUTH_SIMPLE {
      assert SectionBytes(a) == s[..a.len];
    } else {
      HashSectionRebuilt(s, DigestSize(a.authType));
    }
  }

  /** What acceptance tells about the packet and about where it lay in the buffer. */
  lemma DecodedParts(b: seq<u8>)
    requires Decode(b).Ok?
    ensures var p := Decode(b).value;
            && p == DecodeHeader(b).(auth := p.auth)
            && WellFormed(p)
            && HEADER_SIZE <= TotalLen(p) <= p.length <= |b|
            && (HasSection(p) ==> DecodeSection(b[HEADER_SIZE..p.length]) == Ok(p.auth.value))
  {
  }

  predicate IsReservedByte(p: ControlPacket, i: nat) {
    i == 27 && HasSection(p) && IsHashType(p.auth.value.authType)
  }

  lemma SectionKept(b: seq<u8>, p: ControlPacket)
    requires HasSection(p) && HEADER_SIZE <= p.length <= |b|
    requires DecodeSection(b[HEADER_SIZE..p.length]) == Ok(p.auth.value)
    ensures WellFormedSection(p.auth.value) && |Section(p)| == p.auth.value.len <= p.length - HEADER_SIZE
    ensures forall i :: 0 <= i < |Section(p)| ==>
              Section(p)[i] == if IsReservedByte(p, i + HEADER_SIZE) then 0 else b[i + HEADER_SIZE]
  {
    SectionRebuilt(b[HEADER_SIZE..p.length]);
  }

  /** Re-encoding any accepted buffer drops the bytes past the authentication section,
      clears the reserved byte of a hash section, sets Length to what is left, changes
      nothing else, and decodes to the same packet. */
  lemma NormalForm(b: seq<u8>)
    requires Decode(b).Ok?
    ensures var p := Decode(b).value;
            var n := TotalLen(p);
            && WellFormed(p)
            && n == |Encode(p)| <= p.length <= |b|
            && Decode(Encode(p)) == Ok(p.(length := n))
            && (forall i :: 0 <= i < n ==>
                  Encode(p)[i] == if i == 3 then n else if IsReservedByte(p, i) then 0 else b[i])
  {
    DecodedParts(b);
    var p := Decode(b).value;
    RoundTrip(p, []);
    assert Encode(p) + [] == Encode(p);
    NormalBytes(b, p);
  }

  lemma NormalBytes(b: seq<u8>, p: ControlPacket)
    requires |b| >= HEADER_SIZE && p == DecodeHeader(b).(auth := p.auth) && WellFormedAuth(p)
    requires HEADER_SIZE <= TotalLen(p) <= p.length <= |b|
    requires HasSection(p) ==> DecodeSection(b[HEADER_SIZE..p.length]) == Ok(p.auth.value)
    ensures |Encode(p)| == TotalLen(p) < 256
    ensures forall i :: 0 <= i < TotalLen(p) ==>
              Encode(p)[i] == if i == 3 then TotalLen(p) else if IsReservedByte(p, i) then 0 else b[i]
  {
    HeaderRebuilt(b, p.auth);
    if HasSection(p) {
      SectionKept(b, p);
      assert forall i :: HEADER_SIZE <= i < TotalLen(p) ==> Encode(p)[i] == Section(p)[i - HEADER_SIZE];
    }
  }
}
