/**
 The server as a sequential event system. The concurrency of the original
 (overlapping requests, timers) becomes interleavings of discrete events:
 a handshake request, a timer firing, and the three steps of a body-bearing
 tunnel request (admission, the pending-reset wait with `beginDecrypt`, the
 end of decryption with `endDecrypt`).
 */
module Server {
  import opened Js
  import opened Session
  import opened Sessions
  import opened Primitives
  import opened Handshake
  import opened Tunnel

  /** A body-route request after admission: its snapshot and its body. */
  datatype InFlight = InFlight(snap: Snapshot, body: Bytes)

  /** The registry, the admitted requests still in the pending-reset wait,
      and those between `beginDecrypt` and `endDecrypt`. */
  datatype World = World(reg: Registry, waiting: seq<InFlight>, decrypting: seq<InFlight>)

  datatype Event =
    | Auth1Post(req: Request, draw: Auth1Draw)
    | Auth2Post(req: Request)
    | TimerFires(loc: Loc, generation: nat)
    | TunnelPost(allowed: seq<nat>, req: Request)
    | TunnelPoll(i: nat)
    | TunnelDone(i: nat)

  /** Removes the entry at position `i`. */
  function Remove(s: seq<InFlight>, i: nat): (r: seq<InFlight>)
    requires i < |s|
    ensures |r| == |s| - 1
    ensures forall k :: 0 <= k < i ==> r[k] == s[k]
    ensures forall k :: i <= k < |r| ==> r[k] == s[k + 1]
  {
    s[..i] + s[i + 1..]
  }

  /** How many requests in `s` concern the record at `l`. */
  function Count(s: seq<InFlight>, l: Loc): (n: nat)
  {
    if |s| == 0 then 0
    else Count(s[..|s| - 1], l) + (if s[|s| - 1].snap.loc == l then 1 else 0)
  }

  lemma {:induction false} CountConcat(a: seq<InFlight>, b: seq<InFlight>, l: Loc)
    ensures Count(a + b, l) == Count(a, l) + Count(b, l)
    decreases |b|
  {
    if |b| > 0 {
      assert (a + b)[..|a + b| - 1] == a + b[..|b| - 1];
      CountConcat(a, b[..|b| - 1], l);
    } else {
      assert a + b == a;
    }
  }

  /** Removing one request takes one off the count of its record. */
  lemma CountRemove(s: seq<InFlight>, i: nat, l: Loc)
    requires i < |s|
    ensures Count(s, l) == Count(Remove(s, i), l) + (if s[i].snap.loc == l then 1 else 0)
  {
    assert s == s[..i] + [s[i]] + s[i + 1..];
    CountConcat(s[..i] + [s[i]], s[i + 1..], l);
    CountConcat(s[..i], [s[i]], l);
    CountConcat(s[..i], s[i + 1..], l);
    assert Count([s[i]], l) == (if s[i].snap.loc == l then 1 else 0) by {
      assert [s[i]][..0] == [];
    }
  }

  lemma CountAppend(s: seq<InFlight>, x: InFlight, l: Loc)
    ensures Count(s + [x], l) == Count(s, l) + (if x.snap.loc == l then 1 else 0)
  {
    assert (s + [x])[..|s|] == s;
  }

  /** The well-formedness of one record that every event keeps. */
  predicate ClientInv(c: Client)
  {
    && c.decrypting >= 0
    && (c.pendingReset ==> c.decrypting > 0)
    && (c.state == Unauthenticated ==> c.key.None? && c.shaKey.None?)
    && (c.state != Unauthenticated ==> c.key.Some? && c.shaKey.Some?)
    && (c.state != Unauthenticated ==> c.timer.armed || c.pendingReset)
  }

  /** Every request refers to a record; every record is well formed and its
      decrypt counter is exactly the number of its requests between
      `beginDecrypt` and `endDecrypt`. */
  ghost predicate Inv(w: World)
  {
    && (forall k :: 0 <= k < |w.waiting| ==> Valid(w.reg, w.waiting[k].snap.loc))
    && (forall k :: 0 <= k < |w.decrypting| ==> Valid(w.reg, w.decrypting[k].snap.loc))
    && (forall l :: Valid(w.reg, l) ==> ClientInv(At(w.reg, l)) && At(w.reg, l).decrypting == Count(w.decrypting, l))
  }

  /** The world right after `new AuthServerSessions(require(authClientsFile))`. */
  function Init(config: seq<(string, Peers)>): (w: World)
    ensures Inv(w)
    ensures forall l :: Valid(w.reg, l) ==> Cleared(At(w.reg, l))
  {
    World(Build(config), [], [])
  }

  /** One event applied to the world. Only handshake requests, a timer firing
      and the decrypt bracket touch the registry, each at most one record;
      admission only reads it. */
  function Step(w: World, e: Event, cred: AppCred, crypto: Crypto): (r: World)
    ensures SameShape(w.reg, r.reg)
    ensures e.TunnelPost? ==> r.reg == w.reg && r.decrypting == w.decrypting
    ensures e.TimerFires? ==> forall m :: Valid(w.reg, m) && m != e.loc ==> At(r.reg, m) == At(w.reg, m)
    ensures e.Auth1Post? || e.Auth2Post? || e.TimerFires? ==> r.waiting == w.waiting && r.decrypting == w.decrypting
    ensures e.TunnelPoll? ==> |r.waiting| + |r.decrypting| == |w.waiting| + |w.decrypting|
    ensures e.TunnelDone? && e.i < |w.decrypting| && Valid(w.reg, w.decrypting[e.i].snap.loc) ==>
      |r.decrypting| == |w.decrypting| - 1
  {
    match e
    case Auth1Post(req, draw) => w.(reg := Auth1(w.reg, req, cred, draw, crypto).reg)
    case Auth2Post(req) => w.(reg := Auth2(w.reg, req, cred, crypto).reg)
    case TimerFires(l, g) =>
      if Valid(w.reg, l) then w.(reg := Put(w.reg, l, Expire(At(w.reg, l), g))) else w
    case TunnelPost(allowed, req) =>
      if !Listed(w.reg, allowed) then w
      else (match Admit(w.reg, allowed, req.ip, req.agent)
        case Admitted(snap) => w.(waiting := w.waiting + [InFlight(snap, req.body)])
        case _ => w)
    case TunnelPoll(i) =>
      if i >= |w.waiting| || !Valid(w.reg, w.waiting[i].snap.loc) then w
      else (match Resume(w.reg, w.waiting[i].snap)
        case None => w
        case Some(begun) => World(begun, Remove(w.waiting, i), w.decrypting + [w.waiting[i]]))
    case TunnelDone(i) =>
      if i >= |w.decrypting| || !Valid(w.reg, w.decrypting[i].snap.loc) then w
      else World(Release(w.reg, w.decrypting[i].snap.loc), w.waiting, Remove(w.decrypting, i))
  }

  function Run(w: World, events: seq<Event>, cred: AppCred, crypto: Crypto): (r: World)
    decreases |events|
  {
    if |events| == 0 then w else Run(Step(w, events[0], cred, crypto), events[1..], cred, crypto)
  }

  /** Only the record at `l` changed, and it stays well formed with its counter. */
  lemma UpdateKeepsInv(w: World, w': World, l: Loc)
    requires Inv(w) && Valid(w.reg, l) && SameShape(w.reg, w'.reg)
    requires w'.waiting == w.waiting && w'.decrypting == w.decrypting
    requires forall m :: Valid(w.reg, m) && m != l ==> At(w'.reg, m) == At(w.reg, m)
    requires ClientInv(At(w'.reg, l)) && At(w'.reg, l).decrypting == At(w.reg, l).decrypting
    ensures Inv(w')
  {
    forall m ensures Valid(w.reg, m) <==> Valid(w'.reg, m) {
      SameShapeValid(w.reg, w'.reg, m);
    }
  }

  /** Round 1 keeps the invariant: the record is restarted, then either
      cleared or holding fresh key material. */
  lemma Auth1KeepsInv(w: World, req: Request, draw: Auth1Draw, cred: AppCred, crypto: Crypto)
    requires Inv(w)
    ensures Inv(w.(reg := Auth1(w.reg, req, cred, draw, crypto).reg))
  {
    var w' := w.(reg := Auth1(w.reg, req, cred, draw, crypto).reg);
    var found := FindSrv(w.reg, req.ip, req.agent);
    if found.Some? {
      UpdateKeepsInv(w, w', found.value);
    }
  }

  /** Round 2 keeps the invariant: the record is reset, left alone, or given
      the key material the proof yielded. */
  lemma Auth2KeepsInv(w: World, req: Request, cred: AppCred, crypto: Crypto)
    requires Inv(w)
    ensures Inv(w.(reg := Auth2(w.reg, req, cred, crypto).reg))
  {
    var w' := w.(reg := Auth2(w.reg, req, cred, crypto).reg);
    var found := FindSrv(w.reg, req.ip, req.agent);
    if found.Some? {
      var l := found.value;
      var before := At(w.reg, l);
      var after := At(w'.reg, l);
      if before.state == HandshakeStarted && req.contentLength == Some(Auth2Length) {
        var parts := SplitAuth2(req.body);
        if exists dk, sha :: Proves(crypto, before, parts, dk, sha) {
          var dk, sha :| Proves(crypto, before, parts, dk, sha);
          assert after.key == Some(dk) && after.shaKey == Some(sha);
        }
      }
      UpdateKeepsInv(w, w', l);
    }
  }

  /** A timer firing keeps the invariant: it defers while the counter is
      non-zero and clears the record otherwise. */
  lemma ExpireKeepsInv(w: World, l: Loc, g: nat)
    requires Inv(w) && Valid(w.reg, l)
    ensures Inv(w.(reg := Put(w.reg, l, Expire(At(w.reg, l), g))))
  {
    UpdateKeepsInv(w, w.(reg := Put(w.reg, l, Expire(At(w.reg, l), g))), l);
  }

  /** `beginDecrypt` keeps the counter equal to the number of decrypting requests. */
  lemma PollKeepsInv(w: World, i: nat, begun: Registry)
    requires Inv(w) && i < |w.waiting| && Valid(w.reg, w.waiting[i].snap.loc)
    requires Resume(w.reg, w.waiting[i].snap) == Some(begun)
    ensures Inv(World(begun, Remove(w.waiting, i), w.decrypting + [w.waiting[i]]))
  {
    var w' := World(begun, Remove(w.waiting, i), w.decrypting + [w.waiting[i]]);
    forall m ensures Valid(w.reg, m) <==> Valid(w'.reg, m) {
      SameShapeValid(w.reg, w'.reg, m);
    }
    forall m | Valid(w'.reg, m)
      ensures ClientInv(At(w'.reg, m)) && At(w'.reg, m).decrypting == Count(w'.decrypting, m)
    {
      CountAppend(w.decrypting, w.waiting[i], m);
    }
  }

  /** `endDecrypt` keeps the counter equal to the number of decrypting
      requests, and a deferred reset it performs leaves a cleared record. */
  lemma DoneKeepsInv(w: World, i: nat)
    requires Inv(w) && i < |w.decrypting| && Valid(w.reg, w.decrypting[i].snap.loc)
    ensures Inv(World(Release(w.reg, w.decrypting[i].snap.loc), w.waiting, Remove(w.decrypting, i)))
  {
    var l := w.decrypting[i].snap.loc;
    var w' := World(Release(w.reg, l), w.waiting, Remove(w.decrypting, i));
    forall m ensures Valid(w.reg, m) <==> Valid(w'.reg, m) {
      SameShapeValid(w.reg, w'.reg, m);
    }
    forall m | Valid(w'.reg, m)
      ensures ClientInv(At(w'.reg, m)) && At(w'.reg, m).decrypting == Count(w'.decrypting, m)
    {
      CountRemove(w.decrypting, i, m);
    }
  }

  lemma {:induction false} StepPreservesInv(w: World, e: Event, cred: AppCred, crypto: Crypto)
    requires Inv(w)
    ensures Inv(Step(w, e, cred, crypto))
    ensures SameShape(w.reg, Step(w, e, cred, crypto).reg)
  {
    match e
    case Auth1Post(req, draw) => Auth1KeepsInv(w, req, draw, cred, crypto);
    case Auth2Post(req) => Auth2KeepsInv(w, req, cred, crypto);
    case TimerFires(l, g) =>
      if Valid(w.reg, l) {
        ExpireKeepsInv(w, l, g);
      }
    case TunnelPost(allowed, req) =>
    case TunnelPoll(i) =>
      if i < |w.waiting| && Valid(w.reg, w.waiting[i].snap.loc) && Resume(w.reg, w.waiting[i].snap).Some? {
        PollKeepsInv(w, i, Resume(w.reg, w.waiting[i].snap).value);
      }
    case TunnelDone(i) =>
      if i < |w.decrypting| && Valid(w.reg, w.decrypting[i].snap.loc) {
        DoneKeepsInv(w, i);
      }
  }

  /** Every world reachable from the initial one satisfies the invariant. */
  lemma {:induction false} RunPreservesInv(w: World, events: seq<Event>, cred: AppCred, crypto: Crypto)
    requires Inv(w)
    ensures Inv(Run(w, events, cred, crypto))
    decreases |events|
  {
    if |events| > 0 {
      StepPreservesInv(w, events[0], cred, crypto);
      RunPreservesInv(Step(w, events[0], cred, crypto), events[1..], cred, crypto);
    }
  }

  /** No event other than round 2 brings a record into state 2. */
  lemma OthersNeverEstablish(w: World, e: Event, cred: AppCred, crypto: Crypto, l: Loc)
    requires Valid(w.reg, l) && !e.Auth2Post?
    requires Valid(Step(w, e, cred, crypto).reg, l)
    ensures At(Step(w, e, cred, crypto).reg, l).state == Established ==> At(w.reg, l).state == Established
  {
    var w' := Step(w, e, cred, crypto);
    match e
    case Auth1Post(req, draw) =>
      var found := FindSrv(w.reg, req.ip, req.agent);
      if found.Some? && found.value == l {
        assert At(w'.reg, l).state != Established;
      }
    case TimerFires(m, g) =>
    case TunnelPost(allowed, req) =>
    case TunnelPoll(i) =>
    case TunnelDone(i) =>
      if i < |w.decrypting| && Valid(w.reg, w.decrypting[i].snap.loc) && w.decrypting[i].snap.loc == l {
        assert At(w'.reg, l) == EndDecrypt(At(w.reg, l));
      }
  }

  /** Round 2 brings into state 2 only the record of its own caller, and only
      from state 1 with a body of the right length and a verified proof. */
  lemma Auth2EstablishesOnlyItsCaller(reg: Registry, req: Request, cred: AppCred, crypto: Crypto, l: Loc)
    requires Valid(reg, l) && At(reg, l).state != Established
    requires Valid(Auth2(reg, req, cred, crypto).reg, l)
    requires At(Auth2(reg, req, cred, crypto).reg, l).state == Established
    ensures FindSrv(reg, req.ip, req.agent) == Some(l)
    ensures At(reg, l).state == HandshakeStarted && req.contentLength == Some(Auth2Length)
    ensures var after := At(Auth2(reg, req, cred, crypto).reg, l);
      after.key.Some? && after.shaKey.Some?
      && Proves(crypto, At(reg, l), SplitAuth2(req.body), after.key.value, after.shaKey.value)
  {
    assert FindSrv(reg, req.ip, req.agent) == Some(l);
  }

  /** A record enters state 2 only through `auth2`, for the caller it belongs
      to, from state 1, with a body of the right length, and only once the
      peer's signature verified; the stored key material is what the proof
      yielded. */
  lemma EstablishedOnlyAfterVerification(w: World, e: Event, cred: AppCred, crypto: Crypto, l: Loc)
    requires Inv(w) && Valid(w.reg, l)
    requires At(w.reg, l).state != Established
    requires At(Step(w, e, cred, crypto).reg, l).state == Established
    ensures e.Auth2Post?
    ensures FindSrv(w.reg, e.req.ip, e.req.agent) == Some(l)
    ensures At(w.reg, l).state == HandshakeStarted && e.req.contentLength == Some(Auth2Length)
    ensures var after := At(Step(w, e, cred, crypto).reg, l);
      after.key.Some? && after.shaKey.Some?
      && Proves(crypto, At(w.reg, l), SplitAuth2(e.req.body), after.key.value, after.shaKey.value)
  {
    StepPreservesInv(w, e, cred, crypto);
    SameShapeValid(w.reg, Step(w, e, cred, crypto).reg, l);
    if e.Auth2Post? {
      Auth2EstablishesOnlyItsCaller(w.reg, e.req, cred, crypto, l);
    } else {
      OthersNeverEstablish(w, e, cred, crypto, l);
      assert false;
    }
  }

  /** In a reachable world the `Buffer.from(undefined)` crash of the tunnel
      cannot happen: every record in state 2 holds its key material. */
  lemma AdmitNeverCrashes(w: World, allowed: seq<nat>, ip: Option<string>, agent: Option<string>)
    requires Inv(w) && Listed(w.reg, allowed)
    ensures !Admit(w.reg, allowed, ip, agent).Crashed?
  {
  }

  /** An expiry that fires while a request is decrypting under the record
      keeps its state and key material and only defers the reset; when that
      last decrypt ends the record is cleared at once. */
  lemma ExpiryDeferredUntilDecryptEnds(w: World, i: nat, cred: AppCred, crypto: Crypto)
    requires Inv(w) && i < |w.decrypting|
    requires var l := w.decrypting[i].snap.loc; At(w.reg, l).timer.armed
    ensures var l := w.decrypting[i].snap.loc;
      var fired := Step(w, TimerFires(l, At(w.reg, l).timer.generation), cred, crypto);
      && At(fired.reg, l).pendingReset
      && At(fired.reg, l).state == At(w.reg, l).state
      && At(fired.reg, l).key == At(w.reg, l).key
      && At(fired.reg, l).shaKey == At(w.reg, l).shaKey
      && fired.decrypting == w.decrypting
      && (Count(w.decrypting, l) == 1 ==> Cleared(At(Step(fired, TunnelDone(i), cred, crypto).reg, l)))
  {
    var l := w.decrypting[i].snap.loc;
    var c := At(w.reg, l);
    CountRemove(w.decrypting, i, l);
    assert c.decrypting >= 1;
    var fired := Step(w, TimerFires(l, c.timer.generation), cred, crypto);
    assert At(fired.reg, l) == Expire(c, c.timer.generation);
  }

  /** A record Established with no decrypt in flight has a live timer; when
      it fires the record is cleared and no protected route selects it any
      more. */
  lemma IdleExpiryEndsSession(w: World, l: Loc, allowed: seq<nat>, ip: Option<string>, agent: Option<string>,
                              cred: AppCred, crypto: Crypto)
    requires Inv(w) && Valid(w.reg, l)
    requires At(w.reg, l).state == Established && Count(w.decrypting, l) == 0
    requires Listed(w.reg, allowed)
    ensures At(w.reg, l).timer.armed
    ensures var expired := Step(w, TimerFires(l, At(w.reg, l).timer.generation), cred, crypto);
      && Cleared(At(expired.reg, l))
      && Listed(expired.reg, allowed)
      && var admitted := Admit(expired.reg, allowed, ip, agent);
         admitted.Admitted? ==> admitted.snap.loc != l
  {
    var c := At(w.reg, l);
    var expired := Step(w, TimerFires(l, c.timer.generation), cred, crypto);
    assert At(expired.reg, l) == Expire(c, c.timer.generation);
    assert SameShape(w.reg, expired.reg);
  }

  /** `findSrv` depends only on the configured ip and agent of each record. */
  lemma FindSrvStable(a: Registry, b: Registry, ip: Option<string>, agent: Option<string>)
    requires SameShape(a, b)
    requires forall m :: Valid(a, m) ==> Valid(b, m) && SameIdentity(At(a, m), At(b, m))
    ensures FindSrv(a, ip, agent) == FindSrv(b, ip, agent)
  {
    forall m ensures Valid(a, m) <==> Valid(b, m) {
      SameShapeValid(a, b, m);
    }
    var ra := FindSrv(a, ip, agent);
    if ra.Some? {
      assert Valid(b, ra.value) && Matches(At(b, ra.value), ip.value, agent.value);
    }
    var rb := FindSrv(b, ip, agent);
    if rb.Some? {
      assert Valid(a, rb.value) && Matches(At(a, rb.value), ip.value, agent.value);
    }
  }

  /** A full handshake: round 1 then round 2 from the same fingerprint, with
      primitives that behave (the ciphertext decapsulates under the round-1
      KEM key, the fields decrypt, the signature over the round-1 random
      bytes verifies, the confirmation encrypts), leaves the record
      Established with the decapsulated key and the peer's shaKey. */
  lemma HandshakeEstablishes(reg: Registry, ip: Option<string>, agent: Option<string>, challenge: Bytes,
                             body: Bytes, draw: Auth1Draw, cred: AppCred, crypto: Crypto, dk: Bytes, sha: Bytes)
    requires FindSrv(reg, ip, agent).Some?
    requires draw.keyPair.Some? && draw.rnd.Some?
    requires crypto.sign(challenge, cred.privateKey, cred.agent).Some?
    requires var parts := SplitAuth2(body);
      var l := FindSrv(reg, ip, agent).value;
      && crypto.kemDecrypt(parts.ciphertext, Some(draw.keyPair.value.privateKey)) == Some(dk)
      && crypto.decrypt(parts.encShaKey, dk) == Some(sha)
      && crypto.decryptWith(parts.encSignedRnd, dk, sha, At(reg, l).agent).Some?
      && crypto.verify(crypto.decryptWith(parts.encSignedRnd, dk, sha, At(reg, l).agent).value,
                       Some(draw.rnd.value), At(reg, l).signature, sha)
      && crypto.encrypt(Confirmation, dk, sha, cred.agent).Some?
    ensures var l := FindSrv(reg, ip, agent).value;
      var round1 := Auth1(reg, Request(ip, agent, Some(Auth1Length), challenge), cred, draw, crypto);
      var round2 := Auth2(round1.reg, Request(ip, agent, Some(Auth2Length), body), cred, crypto);
      && round1.response.Octets? && round2.response.Octets?
      && At(round2.reg, l).state == Established
      && At(round2.reg, l).key == Some(dk) && At(round2.reg, l).shaKey == Some(sha)
  {
    var l := FindSrv(reg, ip, agent).value;
    var round1 := Auth1(reg, Request(ip, agent, Some(Auth1Length), challenge), cred, draw, crypto);
    forall m | Valid(reg, m)
      ensures Valid(round1.reg, m) && SameIdentity(At(reg, m), At(round1.reg, m))
    {
      SameShapeValid(reg, round1.reg, m);
    }
    FindSrvStable(reg, round1.reg, ip, agent);
    var before := At(round1.reg, l);
    assert Proves(crypto, before, SplitAuth2(body), dk, sha);
  }
}
