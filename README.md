# PrivacyShield node: a verified model of the relay core

This project models, in Dafny, the protocol and forwarding core of a PrivacyShield overlay
node: the packet envelope and its wire form, signed alias records, the in-memory alias
directory, the authenticated session handshake, the neighbor table and next-hop selection,
the per-hop padding and delay policy, and the node's forwarding state machine.

The model is organised one module per source file:

- `Bytes` and `Base64` (bytes.dfy, base64.dfy): byte strings, lowercase hex, UTF-8, and a
  strict Base64 codec (section 4 of RFC 4648) with its round trip.
- `Crypto` (crypto.dfy): the cryptographic collaborators as one `Suite` of functions
  (Ed25519 sign/verify and key export, SHA-256, HMAC-SHA256, X25519, AES-256-GCM seal/open,
  and JSON.stringify). The only facts assumed about them are the predicate `Sound`:
  a signature verifies under the signer's public key, Diffie-Hellman commutes, and
  opening inverts sealing. `IdealSuite` shows that these three can hold together.
- `Packets` (packet.dfy): createPacket, encodePacket, decodePacket. The wire form is the
  parsed JSON object (`Wire`); the payload travels as base64 text.
- `Identity` (identity.dfy): alias derivation, the canonical signed field set of an alias
  record, record creation with its defaults, and verification.
- `Dht` (dht.dfy): the class `MemoryDHTStore`, whose record map is changed in place by
  `Put`, by the lazy eviction in `Get`, and by the sweep loop of `PurgeExpired`.
- `Handshake` (handshake.dfy): offer, accept, finalize and the session-key derivation.
- `Shuffle` (shuffle.dfy): the pass-through policy, the random padding/delay policy and
  the clamped `randomInt`.
- `Routing` (routing.dfy): the class `NeighborTable` (a map that remembers insertion order,
  as a JavaScript Map does), the routing engine, a stable sort by distance, and the in-place
  Fisher-Yates shuffle over an array.
- `Node` (node.dfy): the class `PrivacyShieldNode`. Emitted events are appended to
  `events`, transport sends are appended to `outbox` with the delay the shuffle policy
  chose, and transport start/stop to `transportLog`. The pure function `Forward` states
  what one forwarding step does; `ForwardPacket` is proved against it.

The clock is a `now` argument. Random choices are oracle arguments reduced into range:
the shuffle policy's padding and delay, the padding bytes, the routing shuffle's indices,
the handshake's ephemeral keys and the AES-GCM IV. Lemmas show that every in-range value
is reachable. JavaScript falsiness is modelled explicitly where the source relies on it.
An empty alias or address, a zero TTL, TTL option, latency or maxPaths, and an absent
property all take the default.

Padding that the shuffle policy appends at each hop is never removed: `_deliver` does not
read `metadata.paddingBytes`. With the pass-through policy, an encrypted message therefore
round-trips end to end (`Node.EncryptedMessageReachesPeer`). With padding, the receiver
opens a padded ciphertext, and what then happens depends on AES-GCM unforgeability, which
the model does not assume.

## Model

| member | source | states |
|---|---|---|
| `Bytes.HexRoundTrip` | src/identity.js:38 | hex text of any bytes decodes back to exactly those bytes |
| `Bytes.ToHex` | src/identity.js:38 | hex text is twice as long as the bytes and uses only lowercase hex digits |
| `Bytes.Utf8` | src/packet.js:18 | the UTF-8 bytes of a string number between one and four per character |
| `Bytes.Utf8OfAscii` | src/packet.js:18 | an ASCII string becomes one byte per character, each byte the character's code |
| `Base64.Encode` | src/packet.js:39 | base64 text has length 4 * ceil(n / 3) and uses only alphabet and padding characters |
| `Base64.RoundTrip` | src/packet.js:32-58 | decoding the base64 text of any bytes gives back the same bytes, the empty payload included |
| `Base64.EncodeInjective` | src/packet.js:39 | distinct payloads have distinct base64 text |
| `Base64.EncodeEmptyIff` | src/packet.js:39 | the text is empty exactly when the payload is empty |
| `Crypto.IdealSuiteIsSound` | src/handshake.js:73-91 | the three assumptions on the crypto suite (signatures verify, Diffie-Hellman commutes, open inverts seal) are consistent |
| `Packets.NormalizePayload` | src/packet.js:16-18 | a buffer is kept as is, text becomes its UTF-8 bytes (one byte per character for ASCII), a missing payload becomes empty, and the result is empty exactly in those cases |
| `Packets.CreatePacket` | src/packet.js:4-30 | fails exactly when either alias is missing or empty; otherwise version 1 and the given or default ttl, hopCount, metadata and encryption |
| `Packets.CreatePacketDefaults` | src/packet.js:1-11 | with every option absent: TTL 6, hop count 0, empty metadata, no encryption, empty payload |
| `Packets.EncodePacket` | src/packet.js:32-44 | the wire form carries the header fields, the payload as base64, a missing metadata as {} and a missing encryption as null |
| `Packets.DecodePacket` | src/packet.js:46-58 | a missing payload decodes as empty, missing metadata as {}, missing encryption as null; only malformed base64 is refused |
| `Packets.WireRoundTrip` | src/packet.js:32-58 | decoding an encoded packet reproduces every field and the payload byte for byte; only a missing metadata comes back as {} |
| `Identity.ExportPublicKey` | src/identity.js:11-13 | the exported key is non-empty base64 text that decodes back to the DER key |
| `Identity.DeriveAlias` | src/identity.js:35-39 | the alias has exactly 12 lowercase hex characters, the hex of the first 6 bytes of the SHA-256 of the DER key |
| `Identity.CanonicalJson` | src/identity.js:41-49 | the signed object has exactly the fields alias, publicKey, expiresAt, coordinates, in that order; coordinates are null when absent |
| `Identity.CanonicalJsonIdentifiesSignedFields` | src/identity.js:41-49 | two records have the same signed object exactly when their alias, publicKey, expiresAt and coordinates agree |
| `Identity.SignatureNotSigned` | src/identity.js:51-54 | changing a record's signature does not change the bytes that are signed |
| `Identity.SignAliasRecord` | src/identity.js:51-54 | the signature is non-empty base64 that decodes to the Ed25519 signature over the canonical bytes |
| `Identity.VerifyAliasRecord` | src/identity.js:56-68 | false for a missing record, signature or public key; true only if both decode and the signature verifies over the canonical bytes |
| `Identity.CreateAliasRecord` | src/identity.js:70-83 | alias and expiresAt come from the options when set, else the derived alias and now + ttlMs (600000 ms by default, also for a zero ttlMs); coordinates default to null; the record is signed |
| `Identity.CreatedRecordVerifies` | src/identity.js:56-83 | a record created by an identity verifies, whatever the options and the clock |
| `Dht.LiveRecords` | src/dht.js:32-39 | exactly the entries whose expiresAt lies after now, unmodified |
| `Dht.LiveRecordsLater` | src/dht.js:32-39 | sweeping is idempotent, and a later sweep subsumes an earlier one |
| `Dht.MemoryDHTStore.constructor` | src/dht.js:4-7 | a new store is empty |
| `Dht.MemoryDHTStore.Put` | src/dht.js:9-18 | throws on a record that does not verify (checked before expiry); declines an expired record and changes nothing; otherwise stores the record under its alias, replacing any earlier one |
| `Dht.MemoryDHTStore.Get` | src/dht.js:20-30 | null and no change for an absent alias; null and removal of exactly that entry when it has expired; the record and no change when it is live |
| `Dht.MemoryDHTStore.PurgeExpired` | src/dht.js:32-39 | afterwards the store holds exactly the earlier entries that are still live, unmodified |
| `Dht.PutThenGet` | src/dht.js:9-30 | a verified live record put at time now is returned by a get at the same time |
| `Dht.PublishCreated` | src/dht.js:9-18 | a freshly created record is always accepted, and stored under its alias exactly when it expires after now; otherwise the store is unchanged |
| `Handshake.DeriveSessionKey` | src/handshake.js:27-32 | the key is 32 bytes of HMAC-SHA256 over the shared secret, keyed by the UTF-8 of "ps-handshake/v1", the initiator alias and the responder alias joined by bars |
| `Handshake.SessionContextSeparatesPairs` | src/handshake.js:28 | for aliases without a bar, the context string determines the ordered (initiator, responder) pair |
| `Handshake.SignedPayloadVerifies` | src/handshake.js:18-25 | a payload signed with an identity's key verifies under its exported public key |
| `Handshake.CreateHandshakeOffer` | src/handshake.js:38-51 | version 1, the given or a fresh alias record, the ephemeral public key, and a signature over exactly those three under the long-term key |
| `Handshake.CheckOffer` | src/handshake.js:54-71 | the offer is refused for a missing offer or a version other than 1, then for an invalid alias record, then for a bad signature, and accepted exactly when all three pass |
| `Handshake.AcceptHandshakeOffer` | src/handshake.js:53-97 | fails with the first failing offer check; otherwise answers version 1, echoes the offer's ephemeral key, and derives the key for (offer alias, response alias) |
| `Handshake.FinalizeHandshake` | src/handshake.js:99-132 | refuses a wrong version, then an invalid record, then a bad response signature with its own error, then a response that does not echo this offer's ephemeral key; otherwise derives the key for (offer alias, response alias) |
| `Handshake.CreatedOfferAccepted` | src/handshake.js:38-71 | an offer made by an identity passes every check of the responder |
| `Handshake.HandshakeAgreement` | src/handshake.js:73-131 | with commuting Diffie-Hellman, initiator and responder of a well-formed run derive byte-equal session keys |
| `Handshake.StaleResponseRejected` | src/handshake.js:119-121 | a response is refused against any offer whose ephemeral key it does not echo |
| `Shuffle.RandomInt` | src/shuffle.js:28-35 | the value lies between the smaller and the larger bound, and equals the bound when they are equal |
| `Shuffle.RandomIntReachesRange` | src/shuffle.js:28-35 | every value of the range is the outcome of some draw |
| `Shuffle.ShufflePolicy.Apply` | src/shuffle.js:3-25 | pass-through: payload unchanged, no delay, no padding; basic: the payload is a prefix of the result, which is longer by paddingBytes, within [minPadding, maxPadding], with delay within [0, maxDelayMs] |
| `Shuffle.NewBasicShufflePolicy` | src/shuffle.js:10-14 | absent or zero options fall back to 0, 32 and 0 |
| `Shuffle.DefaultPolicyNeverDelays` | src/shuffle.js:10-18 | with default options the delay is always 0 and the padding at most 32 bytes |
| `Routing.Normalize` | src/routing.js:13-20 | address defaults to the alias, coordinates to the origin, a falsy latency to null, lastSeen to now, metadata to {} |
| `Routing.NeighborTable.constructor` | src/routing.js:4-7 | a new table is empty |
| `Routing.NeighborTable.Add` | src/routing.js:9-23 | throws without an alias and changes nothing; otherwise stores one normalised entry per alias, replacing the earlier one in place and appending a new alias at the end |
| `Routing.NeighborTable.Remove` | src/routing.js:25-27 | returns whether the alias was present and deletes only that entry |
| `Routing.NeighborTable.Get` | src/routing.js:29-31 | the entry stored under the alias, or null |
| `Routing.NeighborTable.List` | src/routing.js:33-35 | the i-th entry is the entry stored under the i-th alias in insertion order; one entry per alias, aliases distinct |
| `Routing.NeighborTable.UpdateLatency` | src/routing.js:37-45 | null and no change for an unknown alias; otherwise only that entry's latency and lastSeen change |
| `Routing.NewRoutingEngine` | src/routing.js:49-52 | maxPaths defaults to 1 (also for 0); random fallback is on unless the option is exactly false |
| `Routing.Prefix` | src/routing.js:73 | slice(0, end) keeps min(end, n) elements, and counts a negative end from the back |
| `Routing.SortBy` | src/routing.js:61-68 | the sort returns a permutation of its input ordered by non-decreasing key |
| `Routing.ShuffledIsPermutation` | src/routing.js:77-83 | the Fisher-Yates shuffle returns a permutation of its input |
| `Routing.PickReachesRange` | src/routing.js:79 | every index in [0, i] is the outcome of some draw |
| `Routing.ShuffleInPlace` | src/routing.js:77-83 | the in-place swap loop leaves exactly the Fisher-Yates shuffle of the array's old contents |
| `Routing.SelectNextHops` | src/routing.js:54-74 | the hops are the first maxPaths of the table's list, sorted by distance with a target, shuffled without one when fallback is on, in insertion order otherwise |
| `Routing.SelectFrom` | src/routing.js:54-74 | on a listed neighbor set: nothing for an empty list, else the ranking (sorted by distance to a target, shuffled without one when fallback is on, list order otherwise) cut to maxPaths |
| `Routing.SelectionSize` | src/routing.js:54-74 | an empty table gives no hops; otherwise min(maxPaths, n) hops for a positive maxPaths, each a distinct entry of the table |
| `Routing.SelectionGreedy` | src/routing.js:61-73 | with a target the hops are in non-decreasing distance, and no neighbor left out is nearer than a chosen one |
| `Routing.SelectionInsertionOrder` | src/routing.js:69-73 | without a target and with fallback off, the hops are the first maxPaths entries in insertion order |
| `Node.Encrypt` | src/node.js:101-117 | only the payload and the descriptor change; the descriptor names aes-256-gcm and carries the IV and tag as base64 that decodes back to them |
| `Node.DeliveryEvent` | src/node.js:194-216 | without a descriptor or without a key the payload is delivered as it arrived; with both, either the decrypted payload or a decrypt_failed drop and no message |
| `Node.EncryptedDeliveryRoundTrip` | src/node.js:101-117 | when opening inverts sealing, a packet encrypted by sendMessage is delivered as its plaintext by a node holding the same key |
| `Node.OutboundFor` | src/node.js:145-166 | each copy has ttl - 1 and hopCount + 1, the same version, aliases and encryption, the input payload as a prefix, and metadata that gains paddingBytes only when it is not zero |
| `Node.FanoutCopies` | src/node.js:145-166 | exactly one copy per hop, in hop order: the k-th send is the k-th hop's copy with the k-th shuffle draw |
| `Node.PaddingAccumulates` | src/node.js:145-166 | padding added at one hop is kept at the next; with the pass-through policy the payload crosses hops unchanged |
| `Node.TargetOf` | src/node.js:218-228 | the neighbor entry's coordinates first, then a live directory record's coordinates, else null |
| `Node.AfterResolve` | src/node.js:218-228 | the directory lookup evicts only an expired record for that alias, and only when the neighbor table had no entry |
| `Node.KeyFor` | src/node.js:88-90 | a registered key (even an empty buffer) is returned, else null |
| `Node.Forward` | src/node.js:122-169 | a spent TTL drops with ttl_expired and sends nothing even when addressed here; a live packet addressed here is delivered, returns true and sends nothing; a live packet for another node takes the routing step; a failure sends nothing and emits one drop; any send means success without events |
| `Node.Route` | src/node.js:133-168 | an empty selection drops with no_route; otherwise success with no event; the directory as after the lookup |
| `Node.ForwardSendsToNeighbors` | src/node.js:133-166 | every send goes to a distinct neighbor of the table, min(maxPaths, n) of them for a positive maxPaths, each copy one hop further on |
| `Node.RouteSendsToNeighbors` | src/node.js:133-166 | the sends of the routing step go to distinct neighbors of the table, min(maxPaths, n) of them for a positive maxPaths, each copy one hop further on |
| `Node.EncryptedMessageReachesPeer` | src/node.js:92-216 | an encrypted message forwarded through the pass-through policy is delivered at its destination as its plaintext |
| `Node.PrivacyShieldNode.constructor` | src/node.js:12-26 | every absent option takes its default: derived alias, origin coordinates, maxPaths 1, pass-through policy, max TTL 6; no keys, not started |
| `Node.PrivacyShieldNode.OwnRecord` | src/node.js:47-51 | the published record carries the node's alias and coordinates and expires 600000 ms after now |
| `Node.PrivacyShieldNode.PublishAliasRecord` | src/node.js:47-54 | the node's record is put in the directory under its alias |
| `Node.PrivacyShieldNode.Start` | src/node.js:28-37 | idempotent on the started flag; otherwise starts the transport, sets the flag and publishes the record |
| `Node.PrivacyShieldNode.Stop` | src/node.js:39-45 | idempotent on the started flag; otherwise stops the transport and clears the flag |
| `Node.PrivacyShieldNode.UpdateCoordinates` | src/node.js:56-59 | the node's coordinates become the estimate |
| `Node.PrivacyShieldNode.RegisterSessionKey` | src/node.js:81-86 | refuses a key that is not a buffer; otherwise maps the alias to the key |
| `Node.PrivacyShieldNode.GetSessionKey` | src/node.js:88-90 | the registered key or null |
| `Node.PrivacyShieldNode.ResolveTargetCoordinates` | src/node.js:218-228 | returns the target coordinates and leaves the directory as after the lookup |
| `Node.PrivacyShieldNode.Deliver` | src/node.js:194-216 | appends exactly the delivery event and changes nothing else |
| `Node.PrivacyShieldNode.ForwardPacket` | src/node.js:122-169 | the result, the events, the sends and the directory are those of the forwarding step |
| `Node.PrivacyShieldNode.NextHops` | src/node.js:133-138 | the hops are the routing engine's selection over the table for the resolved target, and the directory is as after the lookup |
| `Node.PrivacyShieldNode.RoutePacket` | src/node.js:133-168 | the result, the events, the sends and the directory are those of the routing step |
| `Node.PrivacyShieldNode.SendCopies` | src/node.js:145-166 | the loop appends one outbound copy per hop, in order |
| `Node.PrivacyShieldNode.LatencyOf` | src/node.js:177-180 | the latency is read only when the metadata holds a number under latencyMs |
| `Node.PrivacyShieldNode.OnPacket` | src/node.js:171-192 | ignores a missing packet or destination; updates the sender's latency only for a set sender and a numeric latency; delivers a packet addressed here without a TTL check; forwards anything else, with the events, sends and directory of the forwarding step over the updated table |
| `Node.PrivacyShieldNode.Outgoing` | src/node.js:92-117 | fails when the destination is missing, or when encryption is asked and there is no session key; otherwise the packet from this node with the given or default TTL and metadata, encrypted when asked |
| `Node.PrivacyShieldNode.SendMessage` | src/node.js:92-120 | an error sends nothing and changes nothing; otherwise the built packet is forwarded |

## Left out

- Cryptography is not computed: Ed25519, SHA-256, HMAC-SHA256, X25519, AES-256-GCM and
  JSON.stringify are the fields of `Crypto.Suite`. Unforgeability is not assumed, so the model
  cannot show that a tampered record, payload or signature is rejected.
- Key import failures (malformed DER, an AES key of the wrong length) are not modelled: the
  suite's functions are total. A malformed IV or tag text in a descriptor is a decrypt failure.
- Base64 decoding is strict (canonical text only); Node's own decoder is lenient and never
  fails. `Packets.DecodePacket` therefore refuses text Node would accept.
- JSON text: the wire form is the parsed object; the UTF-8 JSON serialisation is not
  modelled, and metadata values are limited to null, booleans, numbers and strings.
- Numbers are mathematical integers and reals: no floating-point rounding, NaN, or 2^53 limit.
- `Shuffle.NewBasicShufflePolicy`: options are natural numbers; a negative padding option,
  for which Node's randomBytes would throw, is not modelled.
- `Routing.NeighborTable.UpdateLatency`: the entry is a value, so the model does not capture
  that the source mutates the very object that list() and get() handed out earlier.
- `Dht.MemoryDHTStore.Put` takes a record; the null record, which the source also refuses,
  is not modelled. The store's optional clock is the `now` argument.
- `Node.PrivacyShieldNode.constructor`: the identity, the neighbor table and the directory
  are supplied by the caller; random identity generation is not modelled, and the transport
  is the `outbox` and `transportLog` logs.
- src/coordinates.js is not part of this model: distance is a parameter of the node and
  estimateCoordinates a value passed to `UpdateCoordinates`.
- src/crypto.js internals, the transports (memory, TCP framing), src/demo.js and
  src/index.js are not part of this model.
- addNeighbor, removeNeighbor and linkPeer only delegate to the neighbor table and are not
  modelled separately.
- EventEmitter listeners and setTimeout scheduling are logs: a delayed send is recorded with
  its delay, not performed later.
- The code has no node-level handshake integration, identity rotation, latency-sample
  window, alias cache, or interval-cached churn; the routing shuffle runs on every call, as
  modelled.
