/**
 The two handshake endpoints, `POST {api}/auth1` and `POST {api}/auth2`, each
 as one atomic transition of the registry. Every failure answers 404 with an
 empty body.
 */
module Handshake {
  import opened Js
  import opened Session
  import opened Sessions
  import opened Primitives

  /** Required `content-length` of the round-1 body: the peer's challenge. */
  const Auth1Length: int := 64
  /** Required `content-length` of the round-2 body. */
  const Auth2Length: int := 31554
  /** End of the KEM ciphertext in the round-2 body. */
  const CiphertextEnd: nat := 1568
  /** End of the encrypted shaKey in the round-2 body. */
  const ShaKeyEnd: nat := 1616

  /** `Buffer.from('true')`, the round-2 confirmation plaintext. */
  const Confirmation: Bytes := [116, 114, 117, 101]

  /** What a handler reads: `req.ip`, the `User-Agent` header, the
      `content-length` header as `parseInt(…, 10)` yields it (None for NaN),
      and the raw body. */
  datatype Request = Request(ip: Option<string>, agent: Option<string>, contentLength: Option<int>, body: Bytes)

  /** `sendError` (404, empty body) or an octet-stream body. */
  datatype Response = NotFound | Octets(body: Bytes)

  datatype Outcome = Outcome(reg: Registry, response: Response)

  datatype KemKeyPair = KemKeyPair(publicKey: Bytes, privateKey: Bytes)

  /** The random draws of round 1: `kyber.keyPair()` and `symCryptor.rndBytes(64)`. */
  datatype Auth1Draw = Auth1Draw(keyPair: Option<KemKeyPair>, rnd: Option<Random64>)

  /** The three segments of a round-2 body. */
  datatype Auth2Body = Auth2Body(ciphertext: Bytes, encShaKey: Bytes, encSignedRnd: Bytes)

  /** `after` is `before` freshly `reset()`: identity and decrypt counter kept,
      no deferred reset, and a newly armed expiry. */
  predicate Restarted(before: Client, after: Client)
  {
    SameIdentity(after, before) && after.decrypting == before.decrypting && !after.pendingReset
    && after.timer.armed && after.timer.generation > before.timer.generation
  }

  /** Handler `auth1`. An unknown caller changes nothing; a known one is reset
      before anything else is checked; success leaves it in state 1 holding
      the KEM private key and the 64 random bytes, and replies
      publicKey ‖ signature ‖ random bytes. */
  function Auth1(reg: Registry, req: Request, cred: AppCred, draw: Auth1Draw, crypto: Crypto): (r: Outcome)
    ensures SameShape(reg, r.reg)
    ensures FindSrv(reg, req.ip, req.agent).None? ==> r == Outcome(reg, NotFound)
    ensures FindSrv(reg, req.ip, req.agent).Some? ==>
      var l := FindSrv(reg, req.ip, req.agent).value;
      var before := At(reg, l);
      var after := At(r.reg, l);
      && (forall m :: Valid(reg, m) && m != l ==> At(r.reg, m) == At(reg, m))
      && Restarted(before, after)
      && (r.response.Octets? <==>
            req.contentLength == Some(Auth1Length) && draw.keyPair.Some? && draw.rnd.Some?
            && crypto.sign(req.body, cred.privateKey, cred.agent).Some?)
      && (r.response.NotFound? ==> Cleared(after))
      && (r.response.Octets? ==>
            var sig := crypto.sign(req.body, cred.privateKey, cred.agent).value;
            && after.state == HandshakeStarted
            && after.key == Some(draw.keyPair.value.privateKey)
            && after.shaKey == Some(draw.rnd.value)
            && r.response.body == draw.keyPair.value.publicKey + sig + draw.rnd.value
            && |r.response.body| == |draw.keyPair.value.publicKey| + |sig| + 64)
  {
    if !Truthy(req.ip) || !Truthy(req.agent) then Outcome(reg, NotFound)
    else match FindSrv(reg, req.ip, req.agent)
      case None => Outcome(reg, NotFound)
      case Some(l) =>
        var clt := Reset(At(reg, l));
        if req.contentLength != Some(Auth1Length) then Outcome(Put(reg, l, clt), NotFound)
        else
          var signed := crypto.sign(req.body, cred.privateKey, cred.agent);
          if draw.keyPair.None? || draw.rnd.None? || signed.None? then Outcome(Put(reg, l, clt), NotFound)
          else
            var started := clt.(key := Some(draw.keyPair.value.privateKey), shaKey := Some(draw.rnd.value),
                                state := HandshakeStarted);
            Outcome(Put(reg, l, started), Octets(draw.keyPair.value.publicKey + signed.value + draw.rnd.value))
  }

  /** A peer that knows the lengths of the KEM public key and of the signature
      recovers all three parts of a round-1 reply. */
  lemma Auth1ReplyParses(publicKey: Bytes, sig: Bytes, rnd: Random64)
    ensures var reply := publicKey + sig + rnd;
      && reply[..|publicKey|] == publicKey
      && reply[|publicKey|..|publicKey| + |sig|] == sig
      && reply[|reply| - 64..] == rnd
  {
    var reply := publicKey + sig + rnd;
    assert reply == publicKey + (sig + rnd);
    assert reply[|publicKey|..] == sig + rnd;
    assert reply[|publicKey|..][..|sig|] == sig;
  }

  /** The fixed layout of a round-2 body, cut with clamping `slice`s. */
  function SplitAuth2(data: Bytes): (parts: Auth2Body)
    ensures parts.ciphertext + parts.encShaKey + parts.encSignedRnd == data
    ensures ShaKeyEnd <= |data| ==> |parts.ciphertext| == 1568 && |parts.encShaKey| == 48
    ensures |data| == Auth2Length ==>
      |parts.ciphertext| == 1568 && |parts.encShaKey| == 48 && |parts.encSignedRnd| == 29938
    ensures |data| < CiphertextEnd ==> parts.ciphertext == data && parts.encShaKey == [] && parts.encSignedRnd == []
  {
    SlicesCover(data, CiphertextEnd, ShaKeyEnd);
    Auth2Body(Slice(data, 0, CiphertextEnd), Slice(data, CiphertextEnd, ShaKeyEnd), SliceFrom(data, ShaKeyEnd))
  }

  /** The peer proved itself in round 2: the ciphertext decapsulates under the
      stored KEM key to `dk`, the second segment decrypts under `dk` to `sha`,
      and the third decrypts (under `dk`, `sha` and the peer's agent) to a
      signature that verifies against the peer's registered public key over
      the server's round-1 random bytes, with `sha` as associated data. */
  predicate Proves(crypto: Crypto, clt: Client, parts: Auth2Body, dk: Bytes, sha: Bytes)
  {
    && crypto.kemDecrypt(parts.ciphertext, clt.key) == Some(dk)
    && crypto.decrypt(parts.encShaKey, dk) == Some(sha)
    && var signed := crypto.decryptWith(parts.encSignedRnd, dk, sha, clt.agent);
       signed.Some? && crypto.verify(signed.value, clt.shaKey, clt.signature, sha)
  }

  /** The asynchronous body of `auth2`, run to completion: decapsulate,
      decrypt, verify, store the new key material, encrypt the confirmation,
      then enter state 2. */
  function Confirm(clt: Client, parts: Auth2Body, cred: AppCred, crypto: Crypto): (r: (Client, Response))
    ensures (forall dk, sha :: !Proves(crypto, clt, parts, dk, sha)) ==> r == (clt, NotFound)
    ensures forall dk, sha :: Proves(crypto, clt, parts, dk, sha) ==>
      && r.0 == clt.(key := Some(dk), shaKey := Some(sha),
                     state := if crypto.encrypt(Confirmation, dk, sha, cred.agent).Some? then Established else clt.state)
      && (r.1.Octets? <==> crypto.encrypt(Confirmation, dk, sha, cred.agent).Some?)
      && (r.1.Octets? ==> r.1.body == crypto.encrypt(Confirmation, dk, sha, cred.agent).value)
  {
    match crypto.kemDecrypt(parts.ciphertext, clt.key)
    case None => (clt, NotFound)
    case Some(dk) =>
      match crypto.decrypt(parts.encShaKey, dk)
      case None => (clt, NotFound)
      case Some(sha) =>
        match crypto.decryptWith(parts.encSignedRnd, dk, sha, clt.agent)
        case None => (clt, NotFound)
        case Some(signed) =>
          if !crypto.verify(signed, clt.shaKey, clt.signature, sha) then (clt, NotFound)
          else
            assert Proves(crypto, clt, parts, dk, sha);
            var keyed := clt.(key := Some(dk), shaKey := Some(sha));
            match crypto.encrypt(Confirmation, dk, sha, cred.agent)
            case None => (keyed, NotFound)
            case Some(confirmation) => (keyed.(state := Established), Octets(confirmation))
  }

  /** Handler `auth2`. An unknown caller changes nothing; a caller not in
      state 1 is reset; a wrong length, and any cryptographic failure, answer
      404 without a reset; state 2 is entered only once the peer's signature
      verified, with the decapsulated key and the decrypted shaKey stored. */
  function Auth2(reg: Registry, req: Request, cred: AppCred, crypto: Crypto): (r: Outcome)
    ensures SameShape(reg, r.reg)
    ensures FindSrv(reg, req.ip, req.agent).None? ==> r == Outcome(reg, NotFound)
    ensures FindSrv(reg, req.ip, req.agent).Some? ==>
      var l := FindSrv(reg, req.ip, req.agent).value;
      var before := At(reg, l);
      var after := At(r.reg, l);
      var parts := SplitAuth2(req.body);
      && (forall m :: Valid(reg, m) && m != l ==> At(r.reg, m) == At(reg, m))
      && (before.state != HandshakeStarted ==>
            r.response == NotFound && Restarted(before, after) && Cleared(after))
      && (before.state == HandshakeStarted && req.contentLength != Some(Auth2Length) ==>
            r == Outcome(reg, NotFound))
      && (before.state == HandshakeStarted && req.contentLength == Some(Auth2Length) ==>
            && after.(key := before.key, shaKey := before.shaKey, state := before.state) == before
            && (after.state == before.state || after.state == Established)
            && (r.response.Octets? <==> after.state == Established)
            && (after.state == Established ==>
                  after.key.Some? && after.shaKey.Some?
                  && Proves(crypto, before, parts, after.key.value, after.shaKey.value))
            && ((forall dk, sha :: !Proves(crypto, before, parts, dk, sha)) ==> after == before && r.response == NotFound)
            && (forall dk, sha :: Proves(crypto, before, parts, dk, sha) ==>
                  after.key == Some(dk) && after.shaKey == Some(sha)
                  && (after.state == Established <==> crypto.encrypt(Confirmation, dk, sha, cred.agent).Some?)))
  {
    if !Truthy(req.ip) || !Truthy(req.agent) then Outcome(reg, NotFound)
    else match FindSrv(reg, req.ip, req.agent)
      case None => Outcome(reg, NotFound)
      case Some(l) =>
        var clt := At(reg, l);
        if clt.state != HandshakeStarted then Outcome(Put(reg, l, Reset(clt)), NotFound)
        else if req.contentLength != Some(Auth2Length) then Outcome(reg, NotFound)
        else
          var done := Confirm(clt, SplitAuth2(req.body), cred, crypto);
          Outcome(Put(reg, l, done.0), done.1)
  }
}
