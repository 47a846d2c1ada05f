/**
 The tunnel middleware `clientParser` and the `unless` test guarding the
 wrapped `app.use`.

 A protected request is admitted by selecting an Established record among
 the route's groups and cloning its key material (the snapshot). On a
 body-bearing route it then waits while a reset is pending, brackets the
 decryption with `beginDecrypt`/`endDecrypt`, and forwards the decoded body.
 Waiting and decrypting are separate steps so that other events (an expiry,
 a handshake) can fall between them.
 */
module Tunnel {
  import opened Js
  import opened Session
  import opened Sessions
  import opened Primitives

  /** `req.tunnelClt`: where the record lives and copies of its key material
      and agent, taken at selection time. */
  datatype Snapshot = Snapshot(loc: Loc, key: Bytes, shaKey: Bytes, agent: string)

  /** Refused: 404. Crashed: `Buffer.from(undefined)` threw inside the async
      middleware and no response is sent. Admitted: the snapshot is set up and
      the request goes on. */
  datatype Admission = Refused | Crashed | Admitted(snap: Snapshot)

  /** `next()` with the decoded body, or `sendError`. `sendError` sets status
      404 and calls `this.send()`, which is by then the patched `send`: the
      reply is `undefined` encoded and encrypted under status 404, or status
      400 when that fails. */
  datatype Delivery<V> = Forwarded(payload: V) | Rejected(reply: Sent)

  datatype Decrypted<V> = Decrypted(reg: Registry, delivery: Delivery<V>)

  /** The patched `res.send`: the encrypted encoding, or status 400. */
  datatype Sent = Sent(body: Bytes) | BadRequest

  predicate Eligible(c: Client, ip: string, agent: string)
  {
    Matches(c, ip, agent) && c.state == Established
  }

  /** No record of the groups listed in `allowed` may serve the caller. */
  ghost predicate NoneEligible(reg: Registry, allowed: seq<nat>, ip: string, agent: string)
    requires Listed(reg, allowed)
  {
    forall k, i :: 0 <= k < |allowed| && 0 <= i < |reg[allowed[k]].clients| ==>
      !Eligible(reg[allowed[k]].clients[i], ip, agent)
  }

  /** The selection loop: the first record, in the route's group order then
      client order, with the caller's ip and agent and in state 2. */
  function Select(reg: Registry, allowed: seq<nat>, ip: string, agent: string): (r: Option<Loc>)
    requires Listed(reg, allowed)
    ensures r.None? <==> NoneEligible(reg, allowed, ip, agent)
    ensures r.Some? ==>
      Valid(reg, r.value) && Eligible(At(reg, r.value), ip, agent)
      && (forall i :: 0 <= i < r.value.index ==> !Eligible(reg[r.value.group].clients[i], ip, agent))
      && exists k :: 0 <= k < |allowed| && allowed[k] == r.value.group
           && forall j, i :: 0 <= j < k && 0 <= i < |reg[allowed[j]].clients| ==>
                !Eligible(reg[allowed[j]].clients[i], ip, agent)
  {
    var p := (c: Client) => Eligible(c, ip, agent);
    match Scan(reg, allowed, p)
    case None =>
      assert NoneEligible(reg, allowed, ip, agent) by {
        forall k, i | 0 <= k < |allowed| && 0 <= i < |reg[allowed[k]].clients|
          ensures !Eligible(reg[allowed[k]].clients[i], ip, agent)
        {
          assert NoneIn(reg[allowed[k]].clients, p);
          assert !p(reg[allowed[k]].clients[i]);
        }
      }
      None
    case Some(found) =>
      var l := Loc(allowed[found.0], found.1);
      assert p(reg[allowed[found.0]].clients[found.1]);
      assert forall j, i :: 0 <= j < found.0 && 0 <= i < |reg[allowed[j]].clients| ==>
               !Eligible(reg[allowed[j]].clients[i], ip, agent) by {
        forall j, i | 0 <= j < found.0 && 0 <= i < |reg[allowed[j]].clients|
          ensures !Eligible(reg[allowed[j]].clients[i], ip, agent)
        {
          assert NoneIn(reg[allowed[j]].clients, p);
          assert !p(reg[allowed[j]].clients[i]);
        }
      }
      assert forall i :: 0 <= i < l.index ==> !Eligible(reg[l.group].clients[i], ip, agent) by {
        forall i | 0 <= i < l.index
          ensures !Eligible(reg[l.group].clients[i], ip, agent)
        {
          assert !p(reg[allowed[found.0]].clients[i]);
        }
      }
      assert !NoneEligible(reg, allowed, ip, agent);
      Some(l)
  }

  /** The part of `clientParser` common to every protected route: caller
      check, selection, and the clone of the record's key material. */
  function Admit(reg: Registry, allowed: seq<nat>, ip: Option<string>, agent: Option<string>): (r: Admission)
    requires Listed(reg, allowed)
    ensures !Truthy(ip) || !Truthy(agent) ==> r == Refused
    ensures Truthy(ip) && Truthy(agent) ==> (r.Refused? <==> NoneEligible(reg, allowed, ip.value, agent.value))
    ensures r.Admitted? ==>
      var l := r.snap.loc;
      Valid(reg, l) && l.group in allowed && Eligible(At(reg, l), ip.value, agent.value)
      && At(reg, l).key == Some(r.snap.key) && At(reg, l).shaKey == Some(r.snap.shaKey)
      && r.snap.agent == At(reg, l).agent
    ensures r.Admitted? ==> Select(reg, allowed, ip.value, agent.value) == Some(r.snap.loc)
    ensures r.Crashed? ==>
      Truthy(ip) && Truthy(agent)
      && var l := Select(reg, allowed, ip.value, agent.value);
         l.Some? && (At(reg, l.value).key.None? || At(reg, l.value).shaKey.None?)
  {
    if !Truthy(ip) || !Truthy(agent) then Refused
    else match Select(reg, allowed, ip.value, agent.value)
      case None => Refused
      case Some(l) =>
        var c := At(reg, l);
        if c.key.None? || c.shaKey.None? then Crashed
        else Admitted(Snapshot(l, c.key.value, c.shaKey.value, c.agent))
  }

  /** The `while (clt.pendingReset)` wait followed by `beginDecrypt()` on the
      live record: None while a reset is pending. */
  function Resume(reg: Registry, snap: Snapshot): (r: Option<Registry>)
    requires Valid(reg, snap.loc)
    ensures r.None? <==> At(reg, snap.loc).pendingReset
    ensures r.Some? ==>
      SameShape(reg, r.value)
      && At(r.value, snap.loc).decrypting == At(reg, snap.loc).decrypting + 1
      && At(r.value, snap.loc).(decrypting := At(reg, snap.loc).decrypting) == At(reg, snap.loc)
      && forall m :: Valid(reg, m) && m != snap.loc ==> At(r.value, m) == At(reg, m)
  {
    if At(reg, snap.loc).pendingReset then None
    else Some(Put(reg, snap.loc, BeginDecrypt(At(reg, snap.loc))))
  }

  /** `endDecrypt()` on the live record at `l`. */
  function Release(reg: Registry, l: Loc): (r: Registry)
    requires Valid(reg, l)
    ensures SameShape(reg, r)
    ensures At(r, l).decrypting == At(reg, l).decrypting - 1
    ensures At(reg, l).decrypting == 1 && At(reg, l).pendingReset ==>
      Cleared(At(r, l)) && SameIdentity(At(r, l), At(reg, l))
      && At(r, l).timer.armed && At(r, l).timer.generation > At(reg, l).timer.generation
    ensures !(At(reg, l).decrypting == 1 && At(reg, l).pendingReset) ==>
      At(r, l) == At(reg, l).(decrypting := At(reg, l).decrypting - 1)
    ensures forall m :: Valid(reg, m) && m != l ==> At(r, m) == At(reg, m)
  {
    Put(reg, l, EndDecrypt(At(reg, l)))
  }

  /** The `try`/`finally` around decryption: decrypt under the snapshot with
      the caller's agent, decode, then `endDecrypt()` on every exit. */
  function Decrypt<V>(reg: Registry, snap: Snapshot, body: Bytes, cred: AppCred, crypto: Crypto,
                      decode: Bytes -> Option<V>, encodedUndefined: Option<Bytes>): (r: Decrypted<V>)
    requires Valid(reg, snap.loc)
    ensures r.reg == Release(reg, snap.loc)
    ensures r.delivery.Forwarded? ==>
      var plain := crypto.decryptWith(body, snap.key, snap.shaKey, snap.agent);
      plain.Some? && decode(plain.value) == Some(r.delivery.payload)
    ensures r.delivery.Rejected? ==>
      var plain := crypto.decryptWith(body, snap.key, snap.shaKey, snap.agent);
      (plain.None? || decode(plain.value).None?)
      && r.delivery.reply == Seal(snap, encodedUndefined, cred, crypto)
  {
    var refusal := Seal(snap, encodedUndefined, cred, crypto);
    var delivery :=
      match crypto.decryptWith(body, snap.key, snap.shaKey, snap.agent)
      case None => Rejected(refusal)
      case Some(plain) =>
        match decode(plain)
        case None => Rejected(refusal)
        case Some(v) => Forwarded(v);
    Decrypted(Release(reg, snap.loc), delivery)
  }

  /** The patched `res.send` after `cbEncode`: encrypt the encoding under the
      snapshot with the server's agent; a failed encoding or encryption
      answers 400. */
  function Seal(snap: Snapshot, encoded: Option<Bytes>, cred: AppCred, crypto: Crypto): (r: Sent)
    ensures r.Sent? ==>
      encoded.Some? && crypto.encrypt(encoded.value, snap.key, snap.shaKey, cred.agent) == Some(r.body)
    ensures r.BadRequest? ==>
      encoded.None? || crypto.encrypt(encoded.value, snap.key, snap.shaKey, cred.agent).None?
  {
    match encoded
    case None => BadRequest
    case Some(data) =>
      match crypto.encrypt(data, snap.key, snap.shaKey, cred.agent)
      case None => BadRequest
      case Some(enc) => Sent(enc)
  }

  /** The patched `res.send(obj)`: encode, encrypt under the snapshot with the
      server's agent; any failure answers 400. */
  function Send<V>(snap: Snapshot, obj: V, cred: AppCred, crypto: Crypto, encode: V -> Option<Bytes>): (r: Sent)
    ensures r.Sent? ==>
      encode(obj).Some? && crypto.encrypt(encode(obj).value, snap.key, snap.shaKey, cred.agent) == Some(r.body)
    ensures r.BadRequest? ==>
      encode(obj).None? || crypto.encrypt(encode(obj).value, snap.key, snap.shaKey, cred.agent).None?
  {
    Seal(snap, encode(obj), cred, crypto)
  }

  /** Begin then end with nothing in between leaves the registry exactly as
      it was: the decrypt counter is balanced on success and on failure. */
  lemma {:induction false} DecryptBracketBalanced<V>(reg: Registry, snap: Snapshot, body: Bytes, cred: AppCred, crypto: Crypto,
                                                     decode: Bytes -> Option<V>, encodedUndefined: Option<Bytes>)
    requires Valid(reg, snap.loc) && Resume(reg, snap).Some?
    ensures Decrypt(Resume(reg, snap).value, snap, body, cred, crypto, decode, encodedUndefined).reg == reg
  {
    var c := At(reg, snap.loc);
    var begun := Resume(reg, snap).value;
    assert At(begun, snap.loc) == BeginDecrypt(c);
    EndUndoesBegin(c);
    PutPut(reg, snap.loc, BeginDecrypt(c), c);
    PutAt(reg, snap.loc);
  }

  /** A body the peer encrypted with the session's key material and its own
      agent reaches the route handler as the value it encoded. */
  lemma InboundRoundTrip<V(!new)>(reg: Registry, snap: Snapshot, v: V, cred: AppCred, crypto: Crypto,
                                  encode: V -> Option<Bytes>, decode: Bytes -> Option<V>, encodedUndefined: Option<Bytes>)
    requires Valid(reg, snap.loc)
    requires EncryptionRoundTrips(crypto) && DecodeInverts(encode, decode)
    requires encode(v).Some? && crypto.encrypt(encode(v).value, snap.key, snap.shaKey, snap.agent).Some?
    ensures var body := crypto.encrypt(encode(v).value, snap.key, snap.shaKey, snap.agent).value;
      Decrypt(reg, snap, body, cred, crypto, decode, encodedUndefined).delivery == Forwarded(v)
  {
    var body := crypto.encrypt(encode(v).value, snap.key, snap.shaKey, snap.agent).value;
    assert crypto.decryptWith(body, snap.key, snap.shaKey, snap.agent) == Some(encode(v).value);
    assert decode(encode(v).value) == Some(v);
  }

  /** A response the handler sends is recovered by the peer, decrypting with
      the same key material and the server's agent. */
  lemma OutboundRoundTrip<V(!new)>(snap: Snapshot, v: V, cred: AppCred, crypto: Crypto,
                                   encode: V -> Option<Bytes>, decode: Bytes -> Option<V>)
    requires EncryptionRoundTrips(crypto) && DecodeInverts(encode, decode)
    requires Send(snap, v, cred, crypto, encode).Sent?
    ensures var plain := crypto.decryptWith(Send(snap, v, cred, crypto, encode).body, snap.key, snap.shaKey, cred.agent);
      plain.Some? && decode(plain.value) == Some(v)
  {
    var data := encode(v).value;
    assert crypto.encrypt(data, snap.key, snap.shaKey, cred.agent).Some?;
  }

  /** `unless(middleware)`: true when the request skips the wrapped middleware
      because its URL lies under `api + '/'`. */
  function Unless(api: string, url: string): (skip: bool)
    ensures skip <==> |api| < |url| && url[..|api|] == api && url[|api|] == '/'
  {
    api + "/" <= url
  }

  /** Every route registered under the prefix (the handshake endpoints and
      the tunnel routes, whose path starts with '/') bypasses `app.use`
      middleware. */
  lemma RoutesBypassUse(api: string, route: string, rest: string)
    requires |route| > 0 && route[0] == '/'
    ensures Unless(api, api + route + rest)
  {
    var url := api + route + rest;
    assert url[..|api|] == api;
    assert url[|api|] == route[0];
  }
}
