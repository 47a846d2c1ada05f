/**
 The per-client session record built by `AuthServerSex` and its methods
 `beginDecrypt`, `endDecrypt`, `delete`, `resetTimer` and `reset`, plus the
 expiry callback that `resetTimer` arms.

 The timer is an explicit event: every arming takes a new generation number,
 `clearTimeout` is the bump of that number, and a firing tagged with a
 generation acts only when it is the armed, current one.
 */
module Session {
  import opened Js

  /** The record's `state`: 0, 1 and 2 in the source. */
  datatype State = Unauthenticated | HandshakeStarted | Established

  /** The `timer` handle: `generation` counts armings; `armed` is false before
      the first `setTimeout` and after the armed timeout has fired. */
  datatype Timer = Timer(generation: nat, armed: bool)

  datatype Client = Client(
    name: string,
    ip: string,
    agent: string,
    signature: Bytes,
    decrypting: int,
    state: State,
    key: Option<Bytes>,
    shaKey: Option<Bytes>,
    pendingReset: bool,
    timer: Timer)

  /** No handshake progress and no key material. */
  predicate Cleared(c: Client)
  {
    c.state == Unauthenticated && c.key == None && c.shaKey == None && !c.pendingReset
  }

  /** The configured identity of a record: what no session event may change. */
  predicate SameIdentity(a: Client, b: Client)
  {
    a.name == b.name && a.ip == b.ip && a.agent == b.agent && a.signature == b.signature
  }

  /** A firing tagged `generation` is the live timeout of `c`. */
  predicate Live(c: Client, generation: nat)
  {
    c.timer.armed && c.timer.generation == generation
  }

  /** The record created for one configured fingerprint. */
  function Fresh(name: string, ip: string, agent: string, signature: Bytes): (c: Client)
    ensures Cleared(c) && c.decrypting == 0 && !c.timer.armed
    ensures c.name == name && c.ip == ip && c.agent == agent && c.signature == signature
  {
    Client(name, ip, agent, signature, 0, Unauthenticated, None, None, false, Timer(0, false))
  }

  function BeginDecrypt(c: Client): (r: Client)
    ensures r.decrypting == c.decrypting + 1
    ensures r.(decrypting := c.decrypting) == c
  {
    c.(decrypting := c.decrypting + 1)
  }

  /** Drops the counter by one; reaching zero with an expiry deferred performs
      the deferred `reset`. */
  function EndDecrypt(c: Client): (r: Client)
    ensures r.decrypting == c.decrypting - 1 && SameIdentity(r, c)
    ensures c.decrypting == 1 && c.pendingReset ==>
      Cleared(r) && r.timer.armed && r.timer.generation > c.timer.generation
    ensures !(c.decrypting == 1 && c.pendingReset) ==> r.(decrypting := c.decrypting) == c
  {
    var d := c.(decrypting := c.decrypting - 1);
    if d.decrypting == 0 && d.pendingReset then Reset(d) else d
  }

  /** `delete()`: forgets the session, keeps identity, counter and timer. */
  function Delete(c: Client): (r: Client)
    ensures Cleared(r)
    ensures SameIdentity(r, c) && r.decrypting == c.decrypting && r.timer == c.timer
  {
    c.(state := Unauthenticated, key := None, shaKey := None, pendingReset := false)
  }

  /** `resetTimer()`: cancels the previous timeout and arms a new one. */
  function ResetTimer(c: Client): (r: Client)
    ensures r.timer.armed && r.timer.generation > c.timer.generation
    ensures r.(timer := c.timer) == c
  {
    c.(timer := Timer(c.timer.generation + 1, true))
  }

  /** `reset()`: re-arm the expiry, then `delete()`. */
  function Reset(c: Client): (r: Client)
    ensures Cleared(r) && SameIdentity(r, c) && r.decrypting == c.decrypting
    ensures r.timer.armed && r.timer.generation > c.timer.generation
  {
    Delete(ResetTimer(c))
  }

  /** The expiry callback firing with the given generation. A stale firing is
      a no-op; a live one defers while decrypts are in flight and deletes
      otherwise. */
  function Expire(c: Client, generation: nat): (r: Client)
    ensures !Live(c, generation) ==> r == c
    ensures Live(c, generation) ==>
      !r.timer.armed && r.timer.generation == generation && SameIdentity(r, c) && r.decrypting == c.decrypting
    ensures Live(c, generation) && c.decrypting != 0 ==>
      r.pendingReset && r.state == c.state && r.key == c.key && r.shaKey == c.shaKey
    ensures Live(c, generation) && c.decrypting == 0 ==> Cleared(r)
  {
    if !Live(c, generation) then c
    else
      var fired := c.(timer := c.timer.(armed := false));
      if fired.decrypting != 0 then fired.(pendingReset := true) else Delete(fired)
  }

  /** `delete` is idempotent, and a fresh record is already deleted. */
  lemma DeleteIdempotent(c: Client)
    ensures Delete(Delete(c)) == Delete(c)
    ensures Cleared(c) ==> Delete(c) == c
  {
  }

  /** `endDecrypt` undoes `beginDecrypt` unless the count was zero with a reset
      pending, the one case where the pair performs the deferred reset. */
  lemma EndUndoesBegin(c: Client)
    ensures EndDecrypt(BeginDecrypt(c)) == c <==> !(c.decrypting == 0 && c.pendingReset)
  {
    if c.decrypting == 0 && c.pendingReset {
      assert EndDecrypt(BeginDecrypt(c)).timer != c.timer;
    }
  }

  /** After any reset, every firing armed before it is inert. */
  lemma ResetDisarmsOlderTimers(c: Client, generation: nat)
    requires generation <= c.timer.generation
    ensures Expire(Reset(c), generation) == Reset(c)
  {
  }

  /** An expiry during a decrypt keeps the key material until the last decrypt
      ends, and that end clears it. */
  lemma ExpiryWaitsForDecrypt(c: Client)
    requires c.decrypting == 1 && c.timer.armed
    ensures var fired := Expire(c, c.timer.generation);
      fired.state == c.state && fired.key == c.key && fired.shaKey == c.shaKey
      && Cleared(EndDecrypt(fired))
  {
  }
}
