/** The bytes of a BFD Control packet, as the diagrams of sections 4.1-4.4 of RFC 5880 number
    them: what the encoder writes and what the decoder reads, field by field. */
module WireFormat {
  import opened Bytes
  import opened Fsm
  import opened Codec
  import opened Auth

  function Joined(a: int, b: int, c: int, d: int): int {
    a * 0x100_0000 + b * 0x1_0000 + c * 0x100 + d
  }

  /** Four bytes, most significant first. */
  function Word(b: seq<u8>, i: nat): int
    requires i + 4 <= |b|
  {
    Joined(b[i], b[i + 1], b[i + 2], b[i + 3])
  }

  function Bit(on: bool, weight: nat): nat {
    if on then weight else 0
  }

  /** AdminDown is 0, Down 1, Init 2 and Up 3, in the two top bits. */
  function StateBits(s: State): nat {
    match s case AdminDown => 0 case Down => 64 case Init => 128 case Up => 192
  }

  /** The mandatory section: version and diagnostic, state and the P, F, C, A, D and M bits,
      the multiplier, and five words. The length, byte 3, is not looked at. */
  predicate HeaderLaidOut(b: seq<u8>, p: ControlPacket)
    requires |b| >= 24
  {
    && b[0] == p.version * 32 + p.diag && p.diag < 32
    && b[1] == StateBits(p.state) + Bit(p.poll, 32) + Bit(p.final, 16) + Bit(p.cpi, 8)
               + Bit(p.authPresent, 4) + Bit(p.demand, 2) + Bit(p.multipoint, 1)
    && b[2] == p.detectMult
    && Word(b, 4) == p.my && Word(b, 8) == p.your
    && Word(b, 12) == p.desiredMinTx && Word(b, 16) == p.requiredMinRx && Word(b, 20) == p.requiredMinEchoRx
  }

  /** The authentication section: type 1 is followed by its length, the key and the password;
      types 2 and 3 have 24 bytes and a digest of 16, types 4 and 5 have 28 bytes and a digest
      of 20, behind the key, a reserved byte and the sequence number. */
  predicate SectionLaidOut(b: seq<u8>, a: AuthSection) {
    && 1 <= a.authType <= 5 && |b| >= 24 + a.len >= 27
    && b[24] == a.authType && b[25] == a.len && b[26] == a.keyId
    && if a.authType == 1
       then a.len == 3 + |a.authData| && b[27..24 + a.len] == a.authData
       else a.len == (if a.authType <= 3 then 24 else 28) && Word(b, 28) == a.seqNum && b[32..24 + a.len] == a.digest
  }

  predicate LaidOut(b: seq<u8>, p: ControlPacket) {
    && |b| >= 24 && HeaderLaidOut(b, p)
    && p.authPresent == p.auth.Some? && (p.auth.Some? ==> SectionLaidOut(b, p.auth.value))
  }

  // ---- Words and bits ----------------------------------------------------

  lemma FourBytes(w: seq<u8>)
    requires |w| == 4
    ensures BigValue(w) == Joined(w[0], w[1], w[2], w[3])
  {
    assert w[..3][..2] == w[..2] && w[..2][..1] == w[..1];
    assert BigValue(w[..2]) == BigValue(w[..1]) * 0x100 + w[1];
    assert BigValue(w[..3]) == BigValue(w[..2]) * 0x100 + w[2];
  }

  lemma WordIs(b: seq<u8>, i: nat)
    requires i + 4 <= |b|
    ensures U32At(b, i) == Word(b, i)
  {
    FourBytes(b[i..i + 4]);
  }

  lemma SixFlags(f: seq<bool>)
    requires |f| == 6
    ensures BitsValue(f) == Bit(f[0], 32) + Bit(f[1], 16) + Bit(f[2], 8) + Bit(f[3], 4) + Bit(f[4], 2) + Bit(f[5], 1)
  {
    assert f[..5][..4] == f[..4] && f[..4][..3] == f[..3] && f[..3][..2] == f[..2] && f[..2][..1] == f[..1];
    assert BitsValue(f[..2]) == Bit(f[0], 2) + Bit(f[1], 1);
    assert BitsValue(f[..3]) == BitsValue(f[..2]) * 2 + Bit(f[2], 1);
    assert BitsValue(f[..4]) == BitsValue(f[..3]) * 2 + Bit(f[3], 1);
    assert BitsValue(f[..5]) == BitsValue(f[..4]) * 2 + Bit(f[4], 1);
  }

  // ---- The decoder reads this layout -------------------------------------

  lemma FlagsRead(b: seq<u8>)
    requires |b| >= 24
    ensures var p := DecodeHeader(b);
            b[1] == StateBits(p.state) + Bit(p.poll, 32) + Bit(p.final, 16) + Bit(p.cpi, 8)
                    + Bit(p.authPresent, 4) + Bit(p.demand, 2) + Bit(p.multipoint, 1)
  {
    SixBits();
    SixFlags(Bits(b[1] % 64, 6));
  }

  lemma HeaderRead(b: seq<u8>)
    requires |b| >= 24
    ensures HeaderLaidOut(b, DecodeHeader(b)) && DecodeHeader(b).length == b[3]
  {
    FlagsRead(b);
    WordIs(b, 4);
    WordIs(b, 8);
    WordIs(b, 12);
    WordIs(b, 16);
    WordIs(b, 20);
  }

  lemma SliceOfSlice(b: seq<u8>, i: nat, n: nat, j: nat, k: nat)
    requires i <= n <= |b| && j <= k <= n - i
    ensures b[i..n][j..k] == b[i + j..i + k]
  {
    var s, t := b[i..n][j..k], b[i + j..i + k];
    assert forall x :: 0 <= x < k - j ==> s[x] == b[i..n][j + x] == b[i + (j + x)] == t[x];
  }

  lemma SectionRead(b: seq<u8>, n: nat)
    requires 24 <= n <= |b| && DecodeSection(b[24..n]).Ok?
    ensures SectionLaidOut(b, DecodeSection(b[24..n]).value)
  {
    var s := b[24..n];
    var a := DecodeSection(s).value;
    if a.authType == 1 {
      SliceOfSlice(b, 24, n, 3, a.len);
    } else {
      SliceOfSlice(b, 24, n, 4, 8);
      SliceOfSlice(b, 24, n, 8, a.len);
      WordIs(b, 28);
    }
  }

  /** Every accepted buffer is the layout of the packet that it is decoded to, and the length
      field is byte 3. */
  lemma DecodeReads(b: seq<u8>)
    requires Decode(b).Ok?
    ensures LaidOut(b, Decode(b).value) && Decode(b).value.version == 1 && Decode(b).value.length == b[3]
  {
    DecodedParts(b);
    HeaderRead(b);
    var p := Decode(b).value;
    if p.auth.Some? {
      SectionRead(b, p.length);
    }
  }

  /** Every well-formed packet is encoded to its layout, with its total length in byte 3 and
      nothing behind it; the reserved byte of a hash section is 0. */
  lemma EncodeWrites(p: ControlPacket, tail: seq<u8>)
    requires WellFormed(p)
    ensures LaidOut(Encode(p) + tail, p)
    ensures var b := Encode(p) + tail;
            && |Encode(p)| == (if p.auth.Some? then 24 + p.auth.value.len else 24) == b[3]
            && (p.auth.Some? && p.auth.value.authType != 1 ==> b[27] == 0)
  {
    var b := Encode(p) + tail;
    RoundTrip(p, tail);
    DecodeReads(b);
    if p.auth.Some? {
      assert b[27] == SectionBytes(p.auth.value)[3];
    }
  }

  // ---- Refusals ----------------------------------------------------------

  /** Steps 1 to 7 of section 6.8.6 of RFC 5880, on the bytes, in their order. */
  lemma HeaderRefusals(b: seq<u8>)
    ensures if |b| < 24 then Decode(b) == Err(PacketTooShort)
            else if b[0] / 32 != 1 then Decode(b) == Err(InvalidVersion)
            else if b[3] < (if b[1] / 4 % 2 == 1 then 26 else 24) then Decode(b) == Err(InvalidLength)
            else if b[3] > |b| then Decode(b) == Err(LengthExceedsPayload)
            else if b[2] == 0 then Decode(b) == Err(ZeroDetectMult)
            else if b[1] % 2 == 1 then Decode(b) == Err(MultipointSet)
            else if Word(b, 4) == 0 then Decode(b) == Err(ZeroMyDiscriminator)
            else if Word(b, 8) == 0 && b[1] >= 128 then Decode(b) == Err(ZeroYourDiscriminator)
            else if b[1] / 4 % 2 == 0 then Decode(b).Ok?
            else match DecodeSection(b[24..b[3]]) case Err(e) => Decode(b) == Err(e) case Ok(_) => Decode(b).Ok?
  {
    if |b| >= 24 {
      HeaderRead(b);
      FlagBits(b[1], DecodeHeader(b));
    }
  }

  /** The A and M bits and the upper two states, read off the byte. */
  lemma FlagBits(x: u8, p: ControlPacket)
    requires x == StateBits(p.state) + Bit(p.poll, 32) + Bit(p.final, 16) + Bit(p.cpi, 8)
                  + Bit(p.authPresent, 4) + Bit(p.demand, 2) + Bit(p.multipoint, 1)
    ensures p.authPresent <==> x / 4 % 2 == 1
    ensures p.multipoint <==> x % 2 == 1
    ensures p.state == Init || p.state == Up <==> x >= 128
  {
    LowBits(x, StateBits(p.state) / 8 + Bit(p.poll, 4) + Bit(p.final, 2) + Bit(p.cpi, 1), p.authPresent, p.demand, p.multipoint);
  }

  lemma LowBits(x: nat, high: nat, a: bool, d: bool, m: bool)
    requires x == 8 * high + Bit(a, 4) + Bit(d, 2) + Bit(m, 1)
    ensures (a <==> x / 4 % 2 == 1) && (m <==> x % 2 == 1)
  {
    Quarter(x, 2 * high + Bit(a, 1), Bit(d, 2) + Bit(m, 1));
    Halves(2 * high + Bit(a, 1), high, Bit(a, 1));
    Halves(x, 4 * high + Bit(a, 2) + Bit(d, 1), Bit(m, 1));
  }

  lemma Quarter(x: nat, q: nat, r: nat)
    requires x == 4 * q + r && r < 4
    ensures x / 4 == q
  {
  }

  lemma Halves(x: nat, q: nat, r: nat)
    requires x == 2 * q + r && r < 2
    ensures x % 2 == r
  {
  }

  /** The refusals of an authentication section, which are the bytes from 24 up to the packet's
      length. */
  lemma SectionRefusals(s: seq<u8>)
    ensures if |s| < 2 || s[1] > |s| + 24 then DecodeSection(s) == Err(AuthSectionTruncated)
            else if s[0] == 1 then
              if 4 <= s[1] <= 19 && s[1] <= |s| then DecodeSection(s).Ok? else DecodeSection(s) == Err(AuthSectionTruncated)
            else if 2 <= s[0] <= 5 then
              if s[1] != (if s[0] <= 3 then 24 else 28) then DecodeSection(s) == Err(InvalidLength)
              else if s[1] > |s| then DecodeSection(s) == Err(AuthSectionTruncated)
              else DecodeSection(s).Ok?
            else DecodeSection(s) == Err(InvalidAuthType)
  {
  }

  // ---- Signed packets ----------------------------------------------------

  /** A packet signed with a password carries type 1, the key's ID and the secret. */
  lemma PasswordWrites(a: AuthVars, p: ControlPacket)
    requires ValidAuth(a) && a.kind == 1
    ensures var b, k := Encode(Signed(a, p)), a.store.current;
            && |b| == 27 + |k.secret| == b[3] && b[24] == 1 && b[25] == 3 + |k.secret| && b[26] == k.id
            && b[27..] == k.secret
  {
    var k := a.store.current;
    var b := Header(Signed(a, p)) + ([1, 3 + |k.secret|, k.id] + k.secret);
    assert Encode(Signed(a, p)) == b;
  }

  /** A hash-signed packet: the type, the length, the key's ID, a reserved byte, the sequence
      number, and the hash of all the bytes so far followed by the secret, zero-padded to the
      size of the digest. */
  predicate DigestLaidOut(b: seq<u8>, kind: u8, size: nat, id: u8, n: u32, secret: seq<u8>) {
    && |b| == 32 + size == b[3] && b[24] == kind && b[25] == 8 + size && b[26] == id && b[27] == 0 && Word(b, 28) == n
    && |secret| <= size && b[32..] == Hash(size, b[..32] + (secret + Zeros(size - |secret|)))
  }

  /** Signing with a hash uses the transmit key, the number after the last one used, modulo
      2^32, and a digest of 16 bytes for types 2 and 3 and 20 for types 4 and 5. */
  lemma DigestWrites(a: AuthVars, p: ControlPacket)
    requires ValidAuth(a) && a.kind != 1
    ensures DigestLaidOut(Encode(Signed(a, p)), a.kind, if a.kind <= 3 then 16 else 20,
                          a.store.current.id, (a.xmitSeq + 1) % 0x1_0000_0000, a.store.current.secret)
  {
    var k, size := a.store.current, DigestSize(a.kind);
    var h := Header(Signed(a, p));
    SignedParts(a, p, h);
    DigestRead(Encode(Signed(a, p)), h, a.kind, size, k.id, Add32(a.xmitSeq, 1), k.secret);
  }

  /** A hash-signed packet in parts, behind its header h. */
  lemma SignedParts(a: AuthVars, p: ControlPacket, h: seq<u8>)
    requires ValidAuth(a) && a.kind != 1 && h == Header(Signed(a, p))
    ensures var k, size := a.store.current, DigestSize(a.kind);
            var front := h + ([a.kind, 8 + size, k.id, 0] + U32Bytes(Add32(a.xmitSeq, 1)));
            && |k.secret| <= size && h[3] == 32 + size
            && Encode(Signed(a, p)) == front + Hash(size, front + (k.secret + Zeros(size - |k.secret|)))
  {
    var k, size := a.store.current, DigestSize(a.kind);
    var s := KeyedSection(a.kind, k, NextXmit(a).xmitSeq);
    var d := Hash(size, Encode(WithSection(p, s)));
    assert Header(WithSection(p, s.(digest := d))) == Header(WithSection(p, s));
    var front := h + ([a.kind, 8 + size, k.id, 0] + U32Bytes(s.seqNum));
    assert Encode(WithSection(p, s.(digest := d))) == front + d;
    assert Encode(WithSection(p, s)) == front + s.digest;
    assert s.digest == k.secret + Zeros(size - |k.secret|);
  }

  lemma DigestRead(b: seq<u8>, h: seq<u8>, kind: u8, size: nat, id: u8, n: u32, secret: seq<u8>)
    requires |h| == 24 && |secret| <= size && h[3] == 32 + size && size < 200
    requires var front := h + ([kind, 8 + size, id, 0] + U32Bytes(n));
             b == front + Hash(size, front + (secret + Zeros(size - |secret|)))
    ensures DigestLaidOut(b, kind, size, id, n, secret)
  {
    var front := h + ([kind, 8 + size, id, 0] + U32Bytes(n));
    assert b[..32] == front;
    assert b[28..32] == U32Bytes(n);
    WordIs(b, 28);
  }
}
