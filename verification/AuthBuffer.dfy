/** Signing and verifying as the daemon does it: in place, on the packet's own buffer,
    with the sequence numbers kept in a mutable record. */
module AuthBuffer {
  import opened Bytes
  import opened Fsm
  import opened Codec
  import opened CodecBuffer
  import opened Auth

  class AuthState {
    const kind: u8
    const store: KeyStore
    var rcvSeq: u32
    var xmitSeq: u32
    var known: bool

    ghost function View(): AuthVars
      reads this
    {
      AuthVars(kind, store, rcvSeq, xmitSeq, known)
    }

    /** NewAuthState: a random first sequence number, nothing known of the peer's. */
    constructor (kind: u8, store: KeyStore, random: u32)
      ensures View() == AuthVars(kind, store, 0, random, false)
    {
      this.kind, this.store := kind, store;
      rcvSeq, xmitSeq, known := 0, random, false;
    }

    /** signHash: the key goes into the digest slot, the packet is laid out, hashed, and
        the slot is overwritten with the digest. The buffer ends up holding exactly the
        encoding of the signed packet, in front of whatever it held before. */
    method SignHash(p: ControlPacket, buf: array<u8>) returns (r: Result<ControlPacket, CodecError>)
      requires ValidAuth(View()) && IsHashType(kind)
      modifies this`xmitSeq, buf
      ensures View() == NextXmit(old(View()))
      ensures var q := Signed(old(View()), p);
              if buf.Length < TotalLen(q) then r == Err(BufTooSmall) && buf[..] == old(buf[..])
              else r == Ok(q) && buf[..] == Encode(q) + old(buf[..])[TotalLen(q)..]
    {
      ghost var before := View();
      var key := store.current;
      var size := DigestSize(kind);
      xmitSeq := Add32(xmitSeq, 1);
      var s := KeyedSection(kind, key, xmitSeq);
      var k := WithSection(p, s);
      if buf.Length >= TotalLen(k) {
        BufferHoldsEncoding(k, buf[..]);
      }
      var n := Marshal(k, buf);
      if n.Err? {
        return Err(n.error);
      }
      ghost var mid := buf[..];
      assert mid == Encode(k) + old(buf[..])[TotalLen(k)..];
      assert buf[..n.value] == Encode(k);
      var digest := Hash(size, buf[..n.value]);
      CopyInto(buf, HEADER_SIZE + 8, digest);
      var q := WithSection(p, s.(digest := digest));
      assert q == Signed(before, p);
      DigestPlaced(p, s, digest, old(buf[..])[TotalLen(k)..]);
      return Ok(q);
    }

    /** Sign. A simple password only fills in the section; the caller lays the packet out. */
    method Sign(p: ControlPacket, buf: array<u8>) returns (r: Result<ControlPacket, CodecError>)
      requires ValidAuth(View())
      modifies this`xmitSeq, buf
      ensures View() == NextXmit(old(View()))
      ensures buf.Length >= MAX_PACKET_SIZE ==> r == Ok(Signed(old(View()), p))
      ensures kind == AUTH_SIMPLE ==> r == Ok(Signed(old(View()), p)) && buf[..] == old(buf[..])
    {
      if kind == AUTH_SIMPLE {
        return Ok(WithSection(p, PasswordSection(store.current)));
      }
      r := SignHash(p, buf);
    }

    /** verifyAndUpdateSeq: saves the digest, overwrites its slot, hashes, compares. */
    method VerifyDigest(s: AuthSection, key: AuthKey, wire: array<u8>) returns (ok: bool)
      requires IsHashType(kind) && wire.Length >= HEADER_SIZE + 8 + DigestSize(kind)
      modifies this`rcvSeq, this`known, wire
      ensures wire[..] == KeyInSlot(old(wire[..]), key, DigestSize(kind))
      ensures ok <==> PadKey(s.digest, DigestSize(kind)) == Hash(DigestSize(kind), wire[..])
      ensures View() == if ok then old(View()).(rcvSeq := s.seqNum, known := true) else old(View())
    {
      var size := DigestSize(kind);
      var saved := PadKey(s.digest, size);
      ClearSlot(wire, HEADER_SIZE + 8, size);
      CopyInto(wire, HEADER_SIZE + 8, key.secret);
      ok := saved == Hash(size, wire[..]);
      if ok {
        rcvSeq := s.seqNum;
        known := true;
      }
    }

    /** checkSeqWindow: the circular test with its computed bounds. */
    method CheckSeqWindow(s: u32, detectMult: u8) returns (ok: bool)
      ensures ok <==> InSeqWindow(View(), s, detectMult)
    {
      if !known {
        return true;
      }
      var lo := rcvSeq;
      var hi := Add32(rcvSeq, 3 * detectMult);
      if IsMeticulous(kind) {
        lo := Add32(rcvSeq, 1);
      }
      ok := SeqInWindow(s, lo, hi);
      CircularTestIsWindow(View(), s, detectMult);
    }

    /** Simple Password: the checks in their order. */
    method CheckPassword(p: ControlPacket) returns (err: Option<AuthError>)
      requires kind == AUTH_SIMPLE
      ensures match VerifyPassword(View(), p) case Ok(_) => err == None case Err(e) => err == Some(e)
    {
      if p.auth.None? {
        return Some(MissingSection);
      }
      var s := p.auth.value;
      if s.authType != AUTH_SIMPLE {
        return Some(TypeMismatch);
      }
      if s.keyId !in store.keys {
        return Some(KeyNotFound);
      }
      var secret := store.keys[s.keyId].secret;
      if s.len != (3 + |secret|) % 256 {
        return Some(LenMismatch);
      }
      if s.authData != secret {
        return Some(PasswordMismatch);
      }
      return None;
    }

    method CheckSection(p: ControlPacket, wire: array<u8>) returns (err: Option<AuthError>)
      requires KnownType(kind)
      modifies this`rcvSeq, this`known, wire
      ensures match Auth.Verify(old(View()), p, old(wire[..]))
              case Ok(v) => err == None && View() == v
              case Err(e) => err == Some(e) && View() == old(View())
      ensures wire[..] == if ReachesDigest(old(View()), p, wire.Length)
                          then KeyInSlot(old(wire[..]), store.keys[p.auth.value.keyId], DigestSize(kind)) else old(wire[..])
    {
      if kind == AUTH_SIMPLE {
        err := CheckPassword(p);
        return;
      }
      var size := DigestSize(kind);
      if p.auth.None? {
        return Some(MissingSection);
      }
      var s := p.auth.value;
      if s.authType != kind {
        return Some(TypeMismatch);
      }
      if s.len != size + 8 {
        return Some(LenMismatch);
      }
      if s.keyId !in store.keys {
        return Some(KeyNotFound);
      }
      var inWindow := CheckSeqWindow(s.seqNum, p.detectMult);
      if !inWindow {
        return Some(SeqOutOfWindow);
      }
      if wire.Length < HEADER_SIZE + 8 + size {
        return Some(WireMissing);
      }
      var ok := VerifyDigest(s, store.keys[s.keyId], wire);
      return if ok then None else Some(DigestMismatch);
    }

    /** Verify: the sequence state moves only on success, and the wire bytes change only
        inside the digest slot and only once every check but the digest has passed. A password
        is accepted exactly if it is the secret that its key ID names, a digest exactly if it is
        the hash of the bytes received with the secret in its place. */
    method Verify(p: ControlPacket, wire: array<u8>) returns (err: Option<AuthError>)
      requires KnownType(kind)
      modifies this`rcvSeq, this`known, wire
      ensures match Auth.Verify(old(View()), p, old(wire[..]))
              case Ok(v) => err == None && View() == v
              case Err(e) => err == Some(e) && View() == old(View())
      ensures wire[..] == if ReachesDigest(old(View()), p, wire.Length)
                          then KeyInSlot(old(wire[..]), store.keys[p.auth.value.keyId], DigestSize(kind)) else old(wire[..])
      ensures kind == 1 ==> (err.None? <==> CarriesPassword(p, store))
      ensures kind != 1 ==>
                (err.None? <==> HashSectionDue(old(View()), p) && CarriesDigest(p, store, if kind <= 3 then 16 else 20, old(wire[..])))
    {
      if kind == 1 {
        PasswordAcceptedIff(View(), p, wire[..]);
      } else {
        HashAcceptedIff(View(), p, wire[..]);
      }
      err := CheckSection(p, wire);
    }
  }

  /** Overwriting the key in the laid-out packet with a digest gives the layout of the
      packet that carries the digest. */
  lemma DigestPlaced(p: ControlPacket, s: AuthSection, d: seq<u8>, rest: seq<u8>)
    requires IsHashType(s.authType) && WellFormedSection(s) && |d| == |s.digest|
    ensures var k := WithSection(p, s);
            var q := WithSection(p, s.(digest := d));
            && |Encode(k)| == TotalLen(k) == TotalLen(q) == |Encode(q)|
            && CopyAt(Encode(k) + rest, HEADER_SIZE + 8, d) == Encode(q) + rest
  {
    var k := WithSection(p, s);
    var q := WithSection(p, s.(digest := d));
    assert Header(q) == Header(k);
    var pre := Header(k) + ([s.authType, s.len, s.keyId, 0] + U32Bytes(s.seqNum));
    assert Encode(q) == pre + d;
    assert Encode(k) == pre + s.digest;
    Overwrite(pre, s.digest, d, rest);
  }

  lemma Overwrite(pre: seq<u8>, x: seq<u8>, d: seq<u8>, rest: seq<u8>)
    requires |x| == |d|
    ensures CopyAt(pre + x + rest, |pre|, d) == pre + d + rest
  {
  }

  /** clearDigestSlot. */
  method ClearSlot(buf: array<u8>, off: nat, size: nat)
    requires off + size <= buf.Length
    modifies buf
    ensures buf[..] == CopyAt(old(buf[..]), off, Zeros(size))
  {
    for i := 0 to size
      invariant forall j :: 0 <= j < buf.Length ==> buf[j] == if off <= j < off + i then 0 else old(buf[j])
    {
      buf[off + i] := 0;
    }
  }
}
