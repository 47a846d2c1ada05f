# microtunnel-server: session and handshake model

This project models the session and handshake core of `microtunnel-server` in Dafny. The server authenticates registered peers with a two-round post-quantum handshake, `POST {api}/auth1` then `POST {api}/auth2`. It then lets them call protected routes through an encrypted tunnel.

The model covers five pieces:

- **The per-peer session record.** This is its state (0, 1, 2), its key material, the in-flight decrypt counter and the deferred-reset flag. It also covers its methods `beginDecrypt`, `endDecrypt`, `delete`, `resetTimer` and `reset`, and the expiry callback that `resetTimer` arms.
- **The registry** `AuthServerSessions`: named groups of records, with `get(name)` and `findSrv(ip, agent)`.
- **The handshake handlers** `auth1` and `auth2`. Each is one atomic transition on the registry, with the fixed byte layouts and the 404 responses.
- **The tunnel middleware** `clientParser`:
  - selecting an Established record among the route's groups;
  - the per-request snapshot of the key material;
  - the pending-reset wait and the `beginDecrypt`/`endDecrypt` bracket;
  - decryption and decoding of the body;
  - the encrypting `res.send` wrapper.
- **Route registration** `addAppCltRoute` (behind `app.authGet`/`app.authPost`), and the `unless` prefix test that shields the API routes from `app.use` middleware.

Modules:

- `Js`: JavaScript helpers. This is `Option` for `undefined`/`false`, bytes, truthiness, and the clamping `slice`.
- `Session`: the record and its methods.
- `Sessions`: the registry, `get`, `findSrv`, and the constructor.
- `Primitives`: the foreign cryptography and encoding. These are uninterpreted functions passed in as a `Crypto` value and return `None` when they reject or throw.
- `Handshake`: `auth1` and `auth2`.
- `Tunnel`: `clientParser`, the send wrapper and `unless`.
- `Routes`: `addAppCltRoute`.
- `Server`: the whole server as an event system. Handshake requests, timer firings and the three steps of a body-bearing tunnel request interleave freely. The system keeps an invariant.

The timer is an explicit event:

- Every `setTimeout` takes a new generation number, and `clearTimeout` is the bump of that number.
- A firing tagged with a generation acts only when that generation is the live, armed one.
- `reset()` calls `resetTimer()` first, so a reset always arms a new expiry.
- The expiry callback itself calls only `delete()`.

Behaviour of the code that a reader might not expect, which the model keeps:

- **Round-2 signature check.** `auth2` treats the decrypted third segment as a detached signature over the server's round-1 random bytes (`clt.shaKey`), checked against the peer's public key with the decrypted shaKey as associated data (index.js:192-193).
- **Wrong round-2 length.** A round-2 body of the wrong length answers 404 without a reset, while a record in the wrong state is reset (index.js:180-184).
- **Round-2 crypto failure.** A failed decapsulation, decryption or verification answers 404 from the `catch` without a reset, so the record stays in state 1 (index.js:189-194, 210).
- **Confirmation failure.** If encrypting the confirmation fails after verification succeeded, the record keeps the new key material and stays in state 1 (index.js:195-204).
- **Snapshot after a reset.** A tunnel request copies the key material when it is admitted (index.js:227-234). If the record is reset while the request waits, the request still decrypts with the copied keys (index.js:265-270).
- **Tunnel rejection reply.** The tunnel's `catch` calls `sendError` (index.js:273-274), whose `this.send()` (index.js:118) is by then the patched `send` (index.js:248). A rejected body therefore gets status 404 with `undefined` encoded and encrypted under the session keys, or status 400 if that fails.
- **State 2 set after the awaits.** `auth2` sets `state = 2` (index.js:204) after its awaits without re-checking the record. A reset or an expiry during those awaits can leave a record in state 2 without key material, or in state 2 with no live expiry. The model takes each handler as one atomic step, so these states do not occur in it (see "## Left out").
- **Auth1 ordering.** `auth1` resets a known caller before it checks the length, so a wrong-length challenge still clears the session and re-arms its expiry (index.js:152-153).

## Model

| member | source | states |
|---|---|---|
| Js.Slice | index.js:186-188 | `Uint8Array.prototype.slice` with non-negative bounds clamps both ends to the length: the in-range part, or nothing when the start is past the end |
| Js.SlicesCover | index.js:186-188 | three consecutive slices at any two cut points concatenate back to the whole array, however short it is |
| Session.Fresh | index.js:45-54 | a newly built record is cleared (state 0, no key, no shaKey, no pending reset), counts no decrypts, has no armed expiry and carries the configured name, ip, agent and public key |
| Session.BeginDecrypt | index.js:55-57 | `beginDecrypt` raises the counter by exactly one and changes nothing else |
| Session.EndDecrypt | index.js:58-63 | `endDecrypt` lowers the counter by exactly one; when that reaches zero with a reset pending it performs the reset (record cleared, a newer expiry armed), otherwise nothing else changes |
| Session.Delete | index.js:64-69 | `delete` clears state, key, shaKey and the pending flag and keeps identity, counter and timer |
| Session.ResetTimer | index.js:70-76 | `resetTimer` cancels the armed expiry and arms one with a newer generation, changing nothing else |
| Session.Reset | index.js:77-80 | `reset` leaves the record cleared, with identity and counter kept and a newer expiry armed |
| Session.Expire | index.js:72-75 | a cancelled or already fired expiry does nothing; a live one disarms, sets the pending flag and keeps state and key material while decrypts are in flight, and clears the record when none are |
| Session.DeleteIdempotent | index.js:64-69 | deleting twice is deleting once, and deleting a cleared record changes nothing |
| Session.EndUndoesBegin | index.js:55-63 | `endDecrypt` after `beginDecrypt` restores the record exactly, except when the counter was zero with a reset pending |
| Session.ResetDisarmsOlderTimers | index.js:70-80 | after a reset, every expiry armed before it is inert |
| Session.ExpiryWaitsForDecrypt | index.js:58-63 | an expiry during the only decrypt keeps state and key material, and ending that decrypt clears the record |
| Sessions.Put | index.js:45-81 | updating one record leaves the registry's shape and every other record unchanged |
| Sessions.Build | index.js:85-92 | the constructor makes one group per configuration entry in order, named by its key, with one fresh record per configured peer (a single peer object counts as a one-element array) |
| Sessions.FirstIn | index.js:106 | `Array.prototype.find` on a group: the first client satisfying the predicate, or none when no client does |
| Sessions.Scan | index.js:105-111 | scanning groups in a given order returns the first client, group by group and then client by client, satisfying the predicate, and none only when no listed group holds one |
| Sessions.Get | index.js:93-98 | `get` finds a group exactly when the name is a non-empty string some group carries, and then it is the first such group |
| Sessions.FindSrv | index.js:99-114 | `findSrv` finds a record exactly when ip and agent are non-empty strings and some record has both; the one found matches and no earlier record in group-then-client order does |
| Sessions.PutPut | index.js:45-81 | of two updates to the same record only the second remains |
| Sessions.PutAt | index.js:45-81 | writing back the record already in place changes nothing |
| Handshake.Auth1 | index.js:146-171 | an unknown or incomplete caller changes nothing and gets 404; a known caller is restarted before anything else; the reply is bytes exactly when the length is 64 and all draws and the signature succeed, and then the record is in state 1 holding the KEM private key and the random bytes and the reply is public key, signature, random bytes; otherwise the record is cleared |
| Handshake.Auth1ReplyParses | index.js:162 | knowing the public-key and signature lengths, a peer recovers all three parts of the round-1 reply |
| Handshake.SplitAuth2 | index.js:185-188 | the three segments concatenate back to the body; a body of at least 1616 bytes gives a 1568-byte ciphertext and a 48-byte second segment, a 31554-byte body splits into 1568, 48 and 29938 bytes, and a body shorter than 1568 bytes is all ciphertext |
| Handshake.Confirm | index.js:189-210 | without a successful decapsulate-decrypt-verify chain the record is untouched and the answer is 404; with one, the record holds the recovered key and shaKey and enters state 2 exactly when the confirmation encrypts, which is then the reply |
| Handshake.Auth2 | index.js:173-211 | an unknown caller changes nothing; a record not in state 1 is reset with 404; a wrong length is 404 with nothing changed; otherwise only key, shaKey and state may change, state 2 is reached only when the peer's proof verified, and the stored key material is what that proof yielded |
| Tunnel.Select | index.js:218-226 | the record chosen is in state 2 with the caller's ip and agent, in an allowed group, with no eligible record before it in the route's group order; none is chosen only when no allowed record is eligible |
| Tunnel.Admit | index.js:213-246 | a missing ip or agent, or no eligible record, is refused; an admitted request snapshots the key, shaKey and agent of exactly the record the selection loop picks, the first eligible one in route-group order; the missing-key crash happens only when that picked record lacks key material |
| Tunnel.Resume | index.js:264-268 | the wait holds exactly while a reset is pending; otherwise the counter of the selected record rises by one and nothing else changes |
| Tunnel.Release | index.js:275-277 | the `finally` lowers the counter of the selected record by one; when that brings it from 1 to 0 with a reset pending it performs the deferred reset (record cleared, identity kept, a newer expiry armed), otherwise nothing else of the record changes; no other record changes |
| Tunnel.Decrypt | index.js:269-277 | `endDecrypt` runs on every exit; the body is forwarded only when it decrypts under the snapshot and the caller's agent and decodes, to that decoded value; otherwise it is rejected, and the rejection's reply is what the patched `send` makes of `undefined` (encrypted under status 404, or status 400) |
| Tunnel.Seal | index.js:248-257 | the patched `send` after encoding: the encryption of the encoding under the snapshot and the server's agent, and 400 only when encoding or encryption fails |
| Tunnel.Send | index.js:248-257 | a response is the encryption of the encoded value under the snapshot and the server's agent, and 400 only when encoding or encryption fails |
| Tunnel.DecryptBracketBalanced | index.js:264-277 | beginning and ending a decrypt with no other event between leaves the registry exactly as it was, on success and on failure |
| Tunnel.InboundRoundTrip | index.js:270-272 | a body the peer encrypted with the session's keys and its own agent reaches the handler as the encoded value |
| Tunnel.OutboundRoundTrip | index.js:248-252 | a response the wrapper sends is recovered by the peer with the same keys and the server's agent |
| Tunnel.Unless | index.js:122-130 | a request skips the wrapped middleware exactly when its URL starts with the API prefix followed by '/' |
| Tunnel.RoutesBypassUse | index.js:122-130 | every URL that literally begins with the API prefix followed by a route starting with '/' bypasses `app.use` middleware |
| Routes.Resolve | index.js:280-292 | every entry of the `clts` array names an existing group; a string gives the one entry `get` returns for it; an array gives entries that are lookups of its names, non-empty exactly when the array is, covering every name that resolves, holding a `false` exactly when some name does not, with no group name twice; `true` gives every group in order; anything else gives nothing |
| Routes.ResolveArray | index.js:284-287 | the array form yields a non-empty result exactly for a non-empty array, every entry a valid group index or `false`, and each entry is what `get` returns for one of the names |
| Routes.ResolveArrayCovers | index.js:284-287 | every name that resolves is represented in the array form's result |
| Routes.ResolveArrayFalse | index.js:284-287 | a `false` entry appears in the array form's result exactly when some name does not resolve |
| Routes.ResolveArrayDistinct | index.js:286 | no two entries of the array form's result carry the same group name |
| Routes.ResolveMeaning | index.js:280-294 | the resolved list is non-empty and free of `false` exactly when the names resolve, and then it lists exactly the groups the names denote |
| Routes.AddAppCltRoute | index.js:280-303 | unresolved names throw 'Invalid server name' first, then missing callbacks, then a method other than get/post; registration succeeds exactly otherwise, at the API path plus the route (default '/'), parsing bodies only for post, serving exactly the named groups |
| Server.Step | index.js:146-279 | every event keeps the registry's shape; a tunnel admission changes no record and no decrypt; an expiry changes no other record; handshakes and expiries leave the in-flight requests alone |
| Server.Init | index.js:120 | the initial world satisfies the invariant and every record starts cleared |
| Server.CountRemove | index.js:275-277 | removing one finished request takes exactly one off the count of its record |
| Server.Auth1KeepsInv | index.js:146-171 | round 1 keeps the invariant |
| Server.Auth2KeepsInv | index.js:173-211 | round 2 keeps the invariant, including when verification fails or the confirmation does not encrypt |
| Server.ExpireKeepsInv | index.js:72-75 | an expiry firing keeps the invariant |
| Server.PollKeepsInv | index.js:264-268 | `beginDecrypt` after the wait keeps each counter equal to the number of its decrypting requests |
| Server.DoneKeepsInv | index.js:275-277 | `endDecrypt`, including a deferred reset it performs, keeps each counter equal to the number of its decrypting requests |
| Server.StepPreservesInv | index.js:45-279 | every event keeps the invariant: each record's counter equals the number of its requests between begin and end decrypt, a pending reset implies one is in flight, key material is present exactly outside state 0, and a session past state 0 has a live expiry or a pending reset |
| Server.RunPreservesInv | index.js:45-279 | every world reachable by any sequence of events satisfies the invariant |
| Server.OthersNeverEstablish | index.js:45-171 | no event other than round 2 (round 1, an expiry, any tunnel step) brings a record into state 2 |
| Server.Auth2EstablishesOnlyItsCaller | index.js:177-204 | round 2 sets state 2 only on its own caller's record, from state 1, with a 31554-byte body and a verified proof |
| Server.EstablishedOnlyAfterVerification | index.js:173-211 | a record enters state 2 only through `auth2` from its own caller, from state 1, with a 31554-byte body, and only with key material a verified proof yielded |
| Server.AdmitNeverCrashes | index.js:218-234 | in every reachable world the tunnel's clone of the key material cannot throw: a record in state 2 always holds key and shaKey |
| Server.ExpiryDeferredUntilDecryptEnds | index.js:58-75 | an expiry during a decrypt keeps state and key material and sets the pending flag; if that was the last decrypt, ending it clears the record |
| Server.IdleExpiryEndsSession | index.js:72-75 | an Established record with no decrypt in flight has a live expiry, and its firing clears the record so no protected route selects it any more |
| Server.FindSrvStable | index.js:99-114 | `findSrv` depends only on the configured identities, not on session state |
| Server.HandshakeEstablishes | index.js:146-211 | with primitives that succeed and a proof that verifies, round 1 then round 2 from the same caller both answer with bytes and leave the record in state 2 with the decapsulated key and the peer's shaKey |

## Left out

- Cryptography and CBOR: kyber, superSphincs, symCryptor and cbor-x are foreign libraries. They are uninterpreted functions returning `None` on rejection. Round trips are assumed only where a lemma states it, as `EncryptionRoundTrips` and `DecodeInverts`.
- The `cred-generate` command (index.js:7-21): key generation and console output.
- Express plumbing: `octetParser`, `res.status`/`send`/`set`/`end`, and the `app.use` wrapper (index.js:131-145). Only its `unless` test is modelled. The 1 MB body limit of `octetParser` is not modelled either.
- Loading the credential and peer files with `require` (index.js:120-121). The model takes the parsed peer configuration as input and the credential as an `AppCred` value.
- Randomness: the key pair and random bytes of round 1 are an explicit `Auth1Draw` argument.
- Real time: the 15-minute timeout and the 200 ms polling loop are events (`TimerFires`, `TunnelPoll`) that may arrive in any order.
- Interleavings inside an `await`: each handshake handler is one atomic transition. A tunnel body request is three steps: admission, the wait with `beginDecrypt`, and the end of decryption.
- Route handlers (`next()` and the user callbacks): they are not part of this model. `AddAppCltRoute` records only their number.
- `app.authGet`/`app.authPost` (index.js:304-309): these only fix the method argument of `addAppCltRoute`, so they are not separate members.
- Routes.AddAppCltRoute: a `cltNames` that is neither a string, an array nor `true` is refused with 'Invalid server name'. In the source a `null` or `undefined` instead throws a `TypeError` when `.constructor` is read.
- Routes.AddAppCltRoute: a non-string array element becomes a `false` entry, as `get` returns for it. The model does not track which non-string value it was. In the source `clts.find` can match an `undefined` element against a `false` entry (`false.name === undefined`), but it then returns the falsy `false`, so the element is pushed all the same, as in the model.
- Routes.ResolveArray: the contract does not state the order of the array form's entries, or that exactly one entry is added per name not yet represented. It states membership, coverage, the presence of `false` and distinct names. Order cannot change which record a route selects, because only the first record per fingerprint can reach state 2.
- Routes.Resolve: for the array form it inherits the same gap as `ResolveArray`, stating neither the order nor the one-entry-per-name rule.
- Handshake.Auth1 and Handshake.Auth2: the `content-length` header is taken already parsed by `parseInt(…, 10)` (index.js:153, 184). The string parsing itself is not modelled.
- Sessions.Build: the configuration is a sequence taken in JavaScript's `for…in` enumeration order (integer-like keys first, ascending, then the others in insertion order; index.js:88). Malformed entries that make the constructor throw at startup, a `null` peer or a missing `publicKey` (index.js:44, 49), are excluded by the types.
- Server.StepPreservesInv and Server.RunPreservesInv cover the modelled events only, with each handshake handler atomic. A route handler may call `req.tunnelClt.delete()`, `resetTimer()` or `reset()` on the live record at any time (index.js:236-244), and a reset or an expiry may land between the awaits of `auth2` (index.js:190-204). Neither is an event of the model.
- Server.EstablishedOnlyAfterVerification: holds for an atomic `auth2` only. In the source, `clt.state = 2` (index.js:204) runs after the awaits at index.js:190-202 without re-checking the record. A reset or delete in between (index.js:196-204), from a wrong-length `auth1` of the same fingerprint (index.js:152-153), the expiry callback (index.js:74) or a route handler, leaves a record in state 2 with no key material.
- Server.AdmitNeverCrashes: holds for an atomic `auth2` only. After the interleaving above, a record in state 2 lacks its key, and `Buffer.from(undefined)` at index.js:233 throws on the next tunnel request.
- Server.IdleExpiryEndsSession: holds for an atomic `auth2` only. If the expiry fires (index.js:72-75) while `auth2` awaits, the record is deleted and then set to state 2 with a fired timer and no pending reset, so the session never expires.
- Tunnel.Unless: Express matches routes case-insensitively and ignores a trailing slash by default. A URL such as `/MICROTUNNEL/auth1` therefore reaches a protected handler without `unless` skipping the `app.use` middleware. The model states the bypass only for URLs that literally begin with the API prefix.
- Tunnel.Admit: when a selected record has no key material, `Buffer.from(undefined)` throws inside the async middleware. The model reports `Crashed`, and what Express does afterwards (no response) is not modelled.
- 64-bit and float arithmetic: the decrypt counter is an unbounded integer. JavaScript numbers lose no precision at these magnitudes.
