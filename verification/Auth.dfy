/** Authentication of Control packets: sections 6.7.2-6.7.4 of RFC 5880. */
module Auth {
  import opened Bytes
  import opened Fsm
  import opened Codec

  /** MD5 and SHA1 together: from a digest size and a message to a digest of that size. */
  type HashFn = h: (nat, seq<u8>) -> seq<u8>
    | forall n: nat, d: seq<u8> :: |h(n, d)| == n
    witness (n: nat, d: seq<u8>) => Zeros(n)

  /** The hash is left uninterpreted: all that is known of it is its output size. */
  const Hash: HashFn

  datatype AuthKey = AuthKey(id: u8, keyType: u8, secret: seq<u8>)

  datatype AuthError =
    | KeyNotFound | TypeMismatch | DigestMismatch | PasswordMismatch | SeqOutOfWindow
    | MissingSection | LenMismatch | SecretInvalid | WireMissing

  // ---- Keys --------------------------------------------------------------

  /** One key to transmit with, any number of keys to receive with. */
  datatype KeyStore = KeyStore(keys: map<u8, AuthKey>, current: AuthKey)

  predicate KnownType(t: u8) {
    t == AUTH_SIMPLE || IsHashType(t)
  }

  function MaxSecret(t: u8): nat {
    if t == AUTH_SHA1 || t == AUTH_MET_SHA1 then 20 else 16
  }

  function CheckKey(k: AuthKey): Option<AuthError> {
    if !KnownType(k.keyType) then Some(TypeMismatch)
    else if 1 <= |k.secret| <= MaxSecret(k.keyType) then None
    else Some(SecretInvalid)
  }

  /** The keys of a list, a later one replacing an earlier one with the same ID. */
  function Collect(keys: map<u8, AuthKey>, more: seq<AuthKey>): map<u8, AuthKey>
    decreases |more|
  {
    if more == [] then keys else Collect(keys[more[0].id := more[0]], more[1..])
  }

  predicate AllValid(keys: seq<AuthKey>) {
    forall i :: 0 <= i < |keys| ==> CheckKey(keys[i]).None?
  }

  predicate FirstInvalid(keys: seq<AuthKey>, i: int) {
    0 <= i < |keys| && CheckKey(keys[i]).Some? && AllValid(keys[..i])
  }

  lemma {:induction false} CollectAppend(keys: map<u8, AuthKey>, more: seq<AuthKey>, k: AuthKey)
    ensures Collect(keys, more + [k]) == Collect(keys, more)[k.id := k]
    decreases |more|
  {
    if more == [] {
      assert Collect(keys, [k]) == Collect(keys[k.id := k], []);
    } else {
      assert (more + [k])[1..] == more[1..] + [k];
      CollectAppend(keys[more[0].id := more[0]], more[1..], k);
    }
  }

  /** NewStaticAuthKeyStore. */
  method NewKeyStore(current: AuthKey, additional: seq<AuthKey>) returns (r: Result<KeyStore, AuthError>)
    ensures r.Ok? <==> AllValid([current] + additional)
    ensures forall i :: FirstInvalid([current] + additional, i) ==> r == Err(CheckKey(([current] + additional)[i]).value)
    ensures r.Ok? ==> r.value == KeyStore(Collect(map[current.id := current], additional), current)
  {
    var bad := CheckKey(current);
    if bad.Some? {
      assert ([current] + additional)[0] == current;
      return Err(bad.value);
    }
    var keys := map[current.id := current];
    var i := 0;
    while i < |additional|
      invariant 0 <= i <= |additional|
      invariant forall j :: 0 <= j < i ==> CheckKey(additional[j]).None?
      invariant keys == Collect(map[current.id := current], additional[..i])
    {
      bad := CheckKey(additional[i]);
      if bad.Some? {
        assert ([current] + additional)[i + 1] == additional[i];
        return Err(bad.value);
      }
      CollectAppend(map[current.id := current], additional[..i], additional[i]);
      assert additional[..i + 1] == additional[..i] + [additional[i]];
      keys := keys[additional[i].id := additional[i]];
      i := i + 1;
    }
    assert additional[..i] == additional;
    return Ok(KeyStore(keys, current));
  }

  /** The last key of a list with a given ID, if any. */
  function LastWithId(keys: seq<AuthKey>, id: u8): Option<AuthKey>
    decreases |keys|
  {
    if keys == [] then None
    else if keys[|keys| - 1].id == id then Some(keys[|keys| - 1])
    else LastWithId(keys[..|keys| - 1], id)
  }

  lemma {:induction false} CollectLookup(keys: map<u8, AuthKey>, more: seq<AuthKey>, id: u8)
    requires id in keys
    ensures id in Collect(keys, more)
    ensures Collect(keys, more)[id] == match LastWithId(more, id) case Some(k) => k case None => keys[id]
    decreases |more|
  {
    if more != [] {
      var n := |more| - 1;
      assert more == more[..n] + [more[n]];
      CollectAppend(keys, more[..n], more[n]);
      CollectLookup(keys, more[..n], id);
    }
  }

  /** A store can verify what it signs exactly when no additional key with another
      value reuses the transmit key's ID. */
  lemma StoreFindsCurrentIff(current: AuthKey, additional: seq<AuthKey>)
    ensures var keys := Collect(map[current.id := current], additional);
            current.id in keys &&
            (keys[current.id] == current <==>
             (LastWithId(additional, current.id).Some? ==> LastWithId(additional, current.id).value == current))
  {
    CollectLookup(map[current.id := current], additional, current.id);
  }

  /** For instance: a second key with the transmit key's ID hides it. */
  lemma ReusedIdHidesKey()
    ensures var current, second := AuthKey(1, AUTH_SHA1, [1]), AuthKey(1, AUTH_SHA1, [2]);
            AllValid([current, second]) && current != second && Collect(map[1 := current], [second]) == map[1 := second]
  {
    assert [AuthKey(1, AUTH_SHA1, [2])][1..] == [];
  }

  // ---- Sequence numbers --------------------------------------------------

  /** 32-bit subtraction and addition, with wrap-around. */
  function Sub32(a: int, b: int): u32 {
    (a - b) % TWO32
  }

  function Add32(a: int, b: int): u32 {
    (a + b) % TWO32
  }

  predicate IsMeticulous(kind: u8) {
    kind == AUTH_MET_MD5 || kind == AUTH_MET_SHA1
  }

  /** bfd.AuthType, the keys, bfd.RcvAuthSeq, bfd.XmitAuthSeq and bfd.AuthSeqKnown. */
  datatype AuthVars = AuthVars(kind: u8, store: KeyStore, rcvSeq: u32, xmitSeq: u32, known: bool)

  /** The receive window in words: once the sequence is known, a number is acceptable
      if it lies at most 3*DetectMult ahead of the last one accepted, and under a
      meticulous type strictly ahead. A meticulous window for a DetectMult of zero,
      which the decoder never lets through, would hold every number. */
  predicate InSeqWindow(a: AuthVars, s: u32, detectMult: u8) {
    || !a.known
    || (IsMeticulous(a.kind) && detectMult == 0)
    || (if IsMeticulous(a.kind) then 1 else 0) <= Sub32(s, a.rcvSeq) <= 3 * detectMult
  }

  /** The test that the program makes: circular membership in [lo, hi]. */
  predicate SeqInWindow(s: u32, lo: u32, hi: u32) {
    Sub32(s, lo) <= Sub32(hi, lo)
  }

  /** Distances from a shifted origin. */
  lemma SubShift(s: u32, r: u32, c: u32)
    ensures Sub32(s, Add32(r, c)) == if Sub32(s, r) >= c then Sub32(s, r) - c else Sub32(s, r) - c + TWO32
  {
    var q1, d := (s - r) / TWO32, Sub32(s, r);
    var q2, w := (r + c) / TWO32, Add32(r, c);
    assert s - w == (q1 + q2) * TWO32 + (d - c);
    if d >= c {
      ModOf(s - w, q1 + q2, d - c);
    } else {
      ModOf(s - w, q1 + q2 - 1, d - c + TWO32);
    }
  }

  lemma SubAdd(r: u32, c: u32)
    ensures Sub32(Add32(r, c), r) == c
  {
    var q, w := (r + c) / TWO32, Add32(r, c);
    ModOf(w - r, -q, c);
  }

  /** The circular test, with the bounds that the program passes it, decides exactly
      the window in words, wrap-around included. */
  lemma CircularTestIsWindow(a: AuthVars, s: u32, detectMult: u8)
    requires a.known
    ensures var lo := if IsMeticulous(a.kind) then Add32(a.rcvSeq, 1) else a.rcvSeq;
            SeqInWindow(s, lo, Add32(a.rcvSeq, 3 * detectMult)) <==> InSeqWindow(a, s, detectMult)
  {
    SubAdd(a.rcvSeq, 3 * detectMult);
    SubShift(s, a.rcvSeq, 1);
    SubShift(Add32(a.rcvSeq, 3 * detectMult), a.rcvSeq, 1);
  }

  // ---- Signing -----------------------------------------------------------

  function PadKey(secret: seq<u8>, size: nat): (r: seq<u8>)
    ensures |r| == size
  {
    CopyAt(Zeros(size), 0, secret)
  }

  /** The section that carries the key itself where the digest will go. */
  function KeyedSection(kind: u8, key: AuthKey, seqNum: u32): AuthSection
    requires IsHashType(kind)
  {
    AuthSection(kind, DigestSize(kind) + 8, key.id, [], seqNum, PadKey(key.secret, DigestSize(kind)))
  }

  function WithSection(p: ControlPacket, s: AuthSection): ControlPacket {
    p.(authPresent := true, auth := Some(s))
  }

  function PasswordSection(key: AuthKey): AuthSection {
    AuthSection(AUTH_SIMPLE, (3 + |key.secret|) % 256, key.id, key.secret, 0, [])
  }

  function NextXmit(a: AuthVars): AuthVars {
    if a.kind == AUTH_SIMPLE then a else a.(xmitSeq := Add32(a.xmitSeq, 1))
  }

  /** The signed packet; the sequence number is taken after the increment. */
  ghost function Signed(a: AuthVars, p: ControlPacket): ControlPacket
    requires KnownType(a.kind)
  {
    if a.kind == AUTH_SIMPLE then WithSection(p, PasswordSection(a.store.current))
    else
      var s := KeyedSection(a.kind, a.store.current, NextXmit(a).xmitSeq);
      WithSection(p, s.(digest := Hash(DigestSize(a.kind), Encode(WithSection(p, s)))))
  }

  /** A session's authentication settings: the authenticator agrees with the transmit key. */
  predicate ValidAuth(a: AuthVars) {
    && CheckKey(a.store.current).None? && a.kind == a.store.current.keyType
  }

  lemma SignedSection(a: AuthVars, p: ControlPacket)
    requires ValidAuth(a)
    ensures WellFormedAuth(Signed(a, p))
    ensures Signed(a, p).auth.value.authType == a.kind
    ensures Signed(a, p).(authPresent := p.authPresent, auth := p.auth) == p
  {
    if a.kind != AUTH_SIMPLE {
      var s := KeyedSection(a.kind, a.store.current, NextXmit(a).xmitSeq);
      DigestKeepsForm(s, Hash(DigestSize(a.kind), Encode(WithSection(p, s))));
    }
  }

  lemma DigestKeepsForm(s: AuthSection, d: seq<u8>)
    requires IsHashType(s.authType) && WellFormedSection(s) && |d| == |s.digest|
    ensures WellFormedSection(s.(digest := d))
  {
  }

  // ---- Verification ------------------------------------------------------

  /** The wire bytes with the key (zero-padded) in place of the received digest. */
  function KeyInSlot(wire: seq<u8>, key: AuthKey, size: nat): seq<u8>
    requires HEADER_SIZE + 8 + size <= |wire|
  {
    CopyAt(CopyAt(wire, HEADER_SIZE + 8, Zeros(size)), HEADER_SIZE + 8, key.secret)
  }

  function VerifyPassword(a: AuthVars, p: ControlPacket): Result<AuthVars, AuthError> {
    if p.auth.None? then Err(MissingSection)
    else if p.auth.value.authType != AUTH_SIMPLE then Err(TypeMismatch)
    else if p.auth.value.keyId !in a.store.keys then Err(KeyNotFound)
    else
      var key := a.store.keys[p.auth.value.keyId];
      if p.auth.value.len != (3 + |key.secret|) % 256 then Err(LenMismatch)
      else if p.auth.value.authData != key.secret then Err(PasswordMismatch)
      else Ok(a)
  }

  function VerifyHash(a: AuthVars, p: ControlPacket, wire: seq<u8>): Result<AuthVars, AuthError>
    requires IsHashType(a.kind)
  {
    var size := DigestSize(a.kind);
    if p.auth.None? then Err(MissingSection)
    else
      var s := p.auth.value;
      if s.authType != a.kind then Err(TypeMismatch)
      else if s.len != size + 8 then Err(LenMismatch)
      else if s.keyId !in a.store.keys then Err(KeyNotFound)
      else if !InSeqWindow(a, s.seqNum, p.detectMult) then Err(SeqOutOfWindow)
      else if |wire| < HEADER_SIZE + 8 + size then Err(WireMissing)
      else if PadKey(s.digest, size) != Hash(size, KeyInSlot(wire, a.store.keys[s.keyId], size)) then Err(DigestMismatch)
      else Ok(a.(rcvSeq := s.seqNum, known := true))
  }

  function Verify(a: AuthVars, p: ControlPacket, wire: seq<u8>): Result<AuthVars, AuthError>
    requires KnownType(a.kind)
  {
    if a.kind == AUTH_SIMPLE then VerifyPassword(a, p) else VerifyHash(a, p, wire)
  }

  /** Every check of a hash section but the digest itself passes. */
  predicate ReachesDigest(a: AuthVars, p: ControlPacket, size: nat) {
    && IsHashType(a.kind) && p.auth.Some? && p.auth.value.authType == a.kind && p.auth.value.len == DigestSize(a.kind) + 8
    && p.auth.value.keyId in a.store.keys && InSeqWindow(a, p.auth.value.seqNum, p.detectMult)
    && size >= HEADER_SIZE + 8 + DigestSize(a.kind)
  }

  // ---- What is signed verifies -------------------------------------------

  /** Putting the key back into the digest slot of a signed packet restores, byte for
      byte, what the signer hashed. */
  lemma SlotRestored(p: ControlPacket, s: AuthSection, d: seq<u8>, key: AuthKey)
    requires IsHashType(s.authType) && WellFormedSection(s) && |d| == |s.digest|
    requires |key.secret| <= |d| && s.digest == PadKey(key.secret, |d|)
    ensures |Encode(WithSection(p, s.(digest := d)))| == HEADER_SIZE + 8 + |d|
    ensures KeyInSlot(Encode(WithSection(p, s.(digest := d))), key, |d|) == Encode(WithSection(p, s))
  {
    var q := WithSection(p, s.(digest := d));
    var k := WithSection(p, s);
    assert Header(q) == Header(k);
    var pre := Header(k) + ([s.authType, s.len, s.keyId, 0] + U32Bytes(s.seqNum));
    assert Encode(q) == pre + d;
    assert Encode(k) == pre + s.digest;
    KeyBehind(pre, d, key);
  }

  lemma KeyBehind(pre: seq<u8>, d: seq<u8>, key: AuthKey)
    requires |pre| == HEADER_SIZE + 8 && |key.secret| <= |d|
    ensures KeyInSlot(pre + d, key, |d|) == pre + PadKey(key.secret, |d|)
  {
  }

  /** The key store of the receiver resolves the sender's transmit key. */
  predicate SharesKey(r: AuthVars, a: AuthVars) {
    r.kind == a.kind && a.store.current.id in r.store.keys && r.store.keys[a.store.current.id] == a.store.current
  }

  /** A digest over the keyed bytes leaves the sequence window as the only question. */
  lemma DigestAccepted(r: AuthVars, p: ControlPacket, wire: seq<u8>, key: AuthKey)
    requires IsHashType(r.kind) && p.auth.Some? && p.auth.value.authType == r.kind
    requires WellFormedSection(p.auth.value)
    requires p.auth.value.keyId in r.store.keys && r.store.keys[p.auth.value.keyId] == key
    requires |wire| == HEADER_SIZE + 8 + DigestSize(r.kind)
    requires p.auth.value.digest == Hash(DigestSize(r.kind), KeyInSlot(wire, key, DigestSize(r.kind)))
    ensures VerifyHash(r, p, wire) ==
            if InSeqWindow(r, p.auth.value.seqNum, p.detectMult)
            then Ok(r.(rcvSeq := p.auth.value.seqNum, known := true)) else Err(SeqOutOfWindow)
  {
  }

  /** With a shared key, an unpadded signed packet passes every check of the receiver
      except, possibly, the sequence window; and nothing else can refuse it. */
  lemma SignedVerifies(a: AuthVars, r: AuthVars, p: ControlPacket, length: u8)
    requires ValidAuth(a) && SharesKey(r, a)
    ensures var q := Signed(a, p);
            var v := Verify(r, q.(length := length), Encode(q));
            if a.kind == AUTH_SIMPLE then v == Ok(r)
            else
              var s := NextXmit(a).xmitSeq;
              v == if InSeqWindow(r, s, p.detectMult) then Ok(r.(rcvSeq := s, known := true)) else Err(SeqOutOfWindow)
  {
    if a.kind != AUTH_SIMPLE {
      var key := a.store.current;
      var size := DigestSize(a.kind);
      var s := KeyedSection(a.kind, key, NextXmit(a).xmitSeq);
      var d := Hash(size, Encode(WithSection(p, s)));
      SlotRestored(p, s, d, key);
      DigestAccepted(r, Signed(a, p).(length := length), Encode(Signed(a, p)), key);
    }
  }

  /** Padding a signed packet: the verifier hashes the padding too, the signer did not.
      So a padded hash-signed packet is accepted only if its message and the padded
      message happen to have the same digest; with no padding they are the same message. */
  lemma PaddedVerifiesIff(a: AuthVars, r: AuthVars, p: ControlPacket, pad: nat)
    requires ValidAuth(a) && SharesKey(r, a) && a.kind != AUTH_SIMPLE
    requires InSeqWindow(r, NextXmit(a).xmitSeq, p.detectMult)
    ensures var q := Signed(a, p);
            var hashed := Encode(WithSection(p, KeyedSection(a.kind, a.store.current, NextXmit(a).xmitSeq)));
            var size := DigestSize(a.kind);
            Verify(r, q, Encode(q) + Zeros(pad)).Ok? <==> Hash(size, hashed + Zeros(pad)) == Hash(size, hashed)
  {
    var key := a.store.current;
    var size := DigestSize(a.kind);
    var s := KeyedSection(a.kind, key, NextXmit(a).xmitSeq);
    var d := Hash(size, Encode(WithSection(p, s)));
    SlotRestored(p, s, d, key);
    SlotInPadded(Encode(Signed(a, p)), key, size, pad);
    PaddedAccepted(r, Signed(a, p), Encode(Signed(a, p)) + Zeros(pad), key);
  }

  /** For instance: a padded packet is refused if its message and the padded message have
      digests that differ. */
  lemma PaddedRefused(a: AuthVars, r: AuthVars, p: ControlPacket, pad: nat)
    requires ValidAuth(a) && SharesKey(r, a) && a.kind != AUTH_SIMPLE
    requires InSeqWindow(r, NextXmit(a).xmitSeq, p.detectMult)
    requires var hashed := Encode(WithSection(p, KeyedSection(a.kind, a.store.current, NextXmit(a).xmitSeq)));
             Hash(DigestSize(a.kind), hashed + Zeros(pad)) != Hash(DigestSize(a.kind), hashed)
    ensures Verify(r, Signed(a, p), Encode(Signed(a, p)) + Zeros(pad)).Err?
  {
    PaddedVerifiesIff(a, r, p, pad);
  }

  lemma SlotInPadded(wire: seq<u8>, key: AuthKey, size: nat, pad: nat)
    requires |wire| == HEADER_SIZE + 8 + size && |key.secret| <= size
    ensures KeyInSlot(wire + Zeros(pad), key, size) == KeyInSlot(wire, key, size) + Zeros(pad)
  {
  }

  lemma PaddedAccepted(r: AuthVars, p: ControlPacket, wire: seq<u8>, key: AuthKey)
    requires IsHashType(r.kind) && p.auth.Some? && p.auth.value.authType == r.kind
    requires WellFormedSection(p.auth.value)
    requires p.auth.value.keyId in r.store.keys && r.store.keys[p.auth.value.keyId] == key
    requires |wire| >= HEADER_SIZE + 8 + DigestSize(r.kind)
    requires InSeqWindow(r, p.auth.value.seqNum, p.detectMult)
    ensures VerifyHash(r, p, wire).Ok? <==>
            Hash(DigestSize(r.kind), KeyInSlot(wire, key, DigestSize(r.kind))) == p.auth.value.digest
  {
  }

  // ---- What is accepted --------------------------------------------------

  /** A key is usable exactly if its type is one of the five of section 4.1 of RFC 5880 and its
      secret has 1 to 16 bytes, or 1 to 20 for the two SHA1 types. */
  lemma KeyUsableIff(k: AuthKey)
    ensures CheckKey(k).None? <==>
            (1 <= k.keyType <= 3 && 1 <= |k.secret| <= 16) || (4 <= k.keyType <= 5 && 1 <= |k.secret| <= 20)
    ensures CheckKey(k) == Some(TypeMismatch) <==> k.keyType == 0 || k.keyType > 5
  {
  }

  predicate CarriesPassword(p: ControlPacket, store: KeyStore) {
    && p.auth.Some? && p.auth.value.authType == 1 && p.auth.value.keyId in store.keys
    && var secret := store.keys[p.auth.value.keyId].secret;
       p.auth.value.len == (3 + |secret|) % 256 && p.auth.value.authData == secret
  }

  /** Simple Password: a packet is accepted exactly if it has a section of type 1 that names a
      key of the store, is 3 bytes longer than the secret and carries the secret; acceptance
      changes nothing, and each refusal says what was wrong first. */
  lemma PasswordAcceptedIff(a: AuthVars, p: ControlPacket, wire: seq<u8>)
    requires a.kind == 1
    ensures Verify(a, p, wire).Ok? <==> CarriesPassword(p, a.store)
    ensures Verify(a, p, wire).Ok? ==> Verify(a, p, wire).value == a
    ensures Verify(a, p, wire) == Err(MissingSection) <==> p.auth.None?
    ensures Verify(a, p, wire) == Err(TypeMismatch) <==> p.auth.Some? && p.auth.value.authType != 1
    ensures Verify(a, p, wire) == Err(KeyNotFound) <==>
            p.auth.Some? && p.auth.value.authType == 1 && p.auth.value.keyId !in a.store.keys
    ensures Verify(a, p, wire) == Err(LenMismatch) <==>
            && p.auth.Some? && p.auth.value.authType == 1 && p.auth.value.keyId in a.store.keys
            && p.auth.value.len != (3 + |a.store.keys[p.auth.value.keyId].secret|) % 256
  {
  }

  /** The received bytes with the digest blanked out and the key written over its start. */
  function KeyOver(wire: seq<u8>, secret: seq<u8>, size: nat): seq<u8> {
    seq(|wire|, i requires 0 <= i < |wire| =>
      if 32 <= i < 32 + |secret| then secret[i - 32] else if 32 <= i < 32 + size then 0 else wire[i])
  }

  lemma KeyInSlotIs(wire: seq<u8>, key: AuthKey, size: nat)
    requires 32 + size <= |wire|
    ensures KeyInSlot(wire, key, size) == KeyOver(wire, key.secret, size)
  {
  }

  /** What a hash section says before its digest is looked at: the right type and length, a known
      key and, once the sequence is known, a number at most three times the multiplier ahead of
      the last one, modulo 2^32, and really ahead for the meticulous types 3 and 5. */
  predicate HashSectionDue(a: AuthVars, p: ControlPacket) {
    && p.auth.Some? && p.auth.value.authType == a.kind
    && p.auth.value.len == (if a.kind <= 3 then 24 else 28) && p.auth.value.keyId in a.store.keys
    && NumberDue(a, p.auth.value.seqNum, p.detectMult)
  }

  predicate NumberDue(a: AuthVars, s: u32, detectMult: u8) {
    var ahead := (s - a.rcvSeq) % 0x1_0000_0000;
    var strict := a.kind == 3 || a.kind == 5;
    a.known ==> (strict && detectMult == 0) || (if strict then 1 else 0) <= ahead <= 3 * detectMult
  }

  predicate CarriesDigest(p: ControlPacket, store: KeyStore, size: nat, wire: seq<u8>)
    requires p.auth.Some? && p.auth.value.keyId in store.keys
  {
    && |wire| >= 32 + size
    && PadKey(p.auth.value.digest, size) == Hash(size, KeyOver(wire, store.keys[p.auth.value.keyId].secret, size))
  }

  lemma NumberDueIs(a: AuthVars, s: u32, detectMult: u8)
    ensures NumberDue(a, s, detectMult) <==> InSeqWindow(a, s, detectMult)
  {
  }

  /** Keyed MD5 and SHA1, meticulous or not: a packet is accepted exactly if its section is due
      and its digest, 16 or 20 bytes, is the hash of the received bytes with the key in place of
      the digest; the number is then remembered and the sequence known. */
  lemma HashAcceptedIff(a: AuthVars, p: ControlPacket, wire: seq<u8>)
    requires 2 <= a.kind <= 5
    ensures Verify(a, p, wire).Ok? <==>
            HashSectionDue(a, p) && CarriesDigest(p, a.store, if a.kind <= 3 then 16 else 20, wire)
    ensures Verify(a, p, wire).Ok? ==>
            Verify(a, p, wire).value == AuthVars(a.kind, a.store, p.auth.value.seqNum, a.xmitSeq, true)
  {
    var size := DigestSize(a.kind);
    if p.auth.Some? {
      NumberDueIs(a, p.auth.value.seqNum, p.detectMult);
      if p.auth.value.keyId in a.store.keys && |wire| >= 32 + size {
        KeyInSlotIs(wire, a.store.keys[p.auth.value.keyId], size);
      }
    }
  }

  /** The refusals of a hash section, each exactly in its case. */
  lemma HashRefusals(a: AuthVars, p: ControlPacket, wire: seq<u8>)
    requires 2 <= a.kind <= 5
    ensures Verify(a, p, wire) == Err(MissingSection) <==> p.auth.None?
    ensures Verify(a, p, wire) == Err(TypeMismatch) <==> p.auth.Some? && p.auth.value.authType != a.kind
    ensures Verify(a, p, wire) == Err(LenMismatch) <==>
            p.auth.Some? && p.auth.value.authType == a.kind && p.auth.value.len != (if a.kind <= 3 then 24 else 28)
    ensures Verify(a, p, wire) == Err(KeyNotFound) <==>
            && p.auth.Some? && p.auth.value.authType == a.kind && p.auth.value.len == (if a.kind <= 3 then 24 else 28)
            && p.auth.value.keyId !in a.store.keys
    ensures Verify(a, p, wire) == Err(SeqOutOfWindow) <==>
            && p.auth.Some? && p.auth.value.authType == a.kind && p.auth.value.len == (if a.kind <= 3 then 24 else 28)
            && p.auth.value.keyId in a.store.keys && !NumberDue(a, p.auth.value.seqNum, p.detectMult)
    ensures Verify(a, p, wire) == Err(WireMissing) <==> HashSectionDue(a, p) && |wire| < (if a.kind <= 3 then 48 else 52)
  {
    if p.auth.Some? {
      NumberDueIs(a, p.auth.value.seqNum, p.detectMult);
    }
  }
}
