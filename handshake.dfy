/** The authenticated key exchange: offer, accept, finalize and the session-key derivation
    (src/handshake.js). Ephemeral X25519 private keys, which the source generates at random,
    are arguments. */
module Handshake {
  import opened Wrappers
  import opened Bytes
  import opened Crypto
  import opened Identity
  import Base64

  const HandshakeProtocol: string := "ps-handshake/v1"
  const HandshakeVersion: int := 1

  /** An offer; `aliasRecord` is None when the property is missing. */
  datatype Offer = Offer(version: int, aliasRecord: Option<AliasRecord>, ephemeralPublicKey: string, signature: string)

  datatype Response = Response(
    version: int,
    aliasRecord: Option<AliasRecord>,
    peerEphemeralPublicKey: string,
    ephemeralPublicKey: string,
    signature: string)

  /** The errors thrown by acceptHandshakeOffer and finalizeHandshake. */
  datatype HandshakeError =
    | UnsupportedOffer
    | InvalidOfferRecord
    | InvalidOfferSignature
    | UnsupportedResponse
    | InvalidResponseRecord
    | InvalidResponseSignature
    | ResponseDoesNotReferenceOffer
    | MalformedEphemeralKey
    | MissingOfferRecord

  /** The options of createHandshakeOffer and acceptHandshakeOffer. */
  datatype HandshakeOptions = HandshakeOptions(aliasRecord: Option<AliasRecord>, coordinates: Option<Coord>)

  datatype CreatedOffer = CreatedOffer(offer: Offer, ephemeralPrivateKey: Bytes)

  datatype Accepted = Accepted(response: Response, sessionKey: Bytes)

  /** The HMAC key of deriveSessionKey: protocol id, initiator alias, responder alias. */
  function SessionContext(initiatorAlias: string, responderAlias: string): string {
    HandshakeProtocol + "|" + initiatorAlias + "|" + responderAlias
  }

  predicate NoBar(s: string) {
    forall i :: 0 <= i < |s| ==> s[i] != '|'
  }

  /** For aliases without '|' (hex aliases, for one) the context names the ordered pair: a
      secret derived for one (initiator, responder) pair is keyed apart from every other pair. */
  lemma SessionContextSeparatesPairs(i1: string, r1: string, i2: string, r2: string)
    requires NoBar(i1) && NoBar(r1) && NoBar(i2) && NoBar(r2)
    requires SessionContext(i1, r1) == SessionContext(i2, r2)
    ensures i1 == i2 && r1 == r2
  {
    var p := |HandshakeProtocol| + 1;
    var s := SessionContext(i1, r1);
    assert s == SessionContext(i2, r2);
    assert forall k :: 0 <= k < |i1| ==> s[p + k] == i1[k];
    assert forall k :: 0 <= k < |i2| ==> s[p + k] == i2[k];
    assert s[p + |i1|] == '|' && s[p + |i2|] == '|';
    if |i1| != |i2| {
      assert false;
    }
    assert i1 == s[p..p + |i1|] == i2;
    assert r1 == s[p + |i1| + 1..] == r2;
  }

  /** deriveSessionKey: HMAC-SHA256 keyed by the context string over the shared secret,
      cut to its first 32 bytes. */
  function DeriveSessionKey(c: Suite, sharedSecret: Bytes, initiatorAlias: string, responderAlias: string): (k: Bytes)
    ensures |k| == 32
    ensures k == c.hmacSha256(Utf8(SessionContext(initiatorAlias, responderAlias)), sharedSecret)
  {
    c.hmacSha256(Utf8(SessionContext(initiatorAlias, responderAlias)), sharedSecret)[..32]
  }

  /** The object an offer signature covers: version, aliasRecord, ephemeralPublicKey. */
  function OfferPayload(version: int, record: AliasRecord, ephemeralPublicKey: string): Json {
    JObj([("version", JNum(version as real)),
          ("aliasRecord", AliasRecordJson(record)),
          ("ephemeralPublicKey", JStr(ephemeralPublicKey))])
  }

  /** The object a response signature covers: all four response fields. */
  function ResponsePayload(version: int, record: AliasRecord, peerEphemeralPublicKey: string, ephemeralPublicKey: string): Json {
    JObj([("version", JNum(version as real)),
          ("aliasRecord", AliasRecordJson(record)),
          ("peerEphemeralPublicKey", JStr(peerEphemeralPublicKey)),
          ("ephemeralPublicKey", JStr(ephemeralPublicKey))])
  }

  /** signHandshakePayload: base64 Ed25519 signature over the stringified payload. */
  function SignPayload(c: Suite, payload: Json, privateKey: Bytes): string {
    Base64.Encode(c.ed25519Sign(privateKey, c.stringify(payload)))
  }

  /** verifyHandshakePayload against a base64 public key. */
  function VerifyPayload(c: Suite, payload: Json, signature: string, publicKey: string): bool {
    match (Base64.Decode(publicKey), Base64.Decode(signature))
    case (Some(pk), Some(sig)) => c.ed25519Verify(pk, c.stringify(payload), sig)
    case _ => false
  }

  /** A payload signed with an identity's private key verifies under its exported public key. */
  lemma SignedPayloadVerifies(c: Suite, payload: Json, id: Keypair)
    requires SignaturesVerify(c)
    ensures VerifyPayload(c, payload, SignPayload(c, payload, id.privateKey), ExportPublicKey(c, id))
  {
    Base64.RoundTrip(c.ed25519Sign(id.privateKey, c.stringify(payload)));
  }

  /** exportX25519PublicKey of the public half of an ephemeral private key. */
  function EphemeralPublicKey(c: Suite, ephemeralPrivateKey: Bytes): string {
    Base64.Encode(c.x25519Public(ephemeralPrivateKey))
  }

  /** The record a side presents: the one passed in the options, else a fresh one. */
  function PresentedRecord(c: Suite, id: Keypair, opts: HandshakeOptions, now: int): AliasRecord {
    if opts.aliasRecord.Some? then opts.aliasRecord.value
    else CreateAliasRecord(c, id, AliasOptions(None, None, None, opts.coordinates), now)
  }

  /** createHandshakeOffer: version 1, the presented record, the ephemeral public key, and a
      signature over those three under the initiator's long-term key. */
  function CreateHandshakeOffer(c: Suite, id: Keypair, ephemeralPrivateKey: Bytes, opts: HandshakeOptions, now: int): (r: CreatedOffer)
    ensures r.offer.version == HandshakeVersion
    ensures r.offer.aliasRecord == Some(PresentedRecord(c, id, opts, now))
    ensures r.offer.ephemeralPublicKey == EphemeralPublicKey(c, ephemeralPrivateKey)
    ensures r.offer.signature == SignPayload(c, OfferPayload(1, r.offer.aliasRecord.value, r.offer.ephemeralPublicKey), id.privateKey)
    ensures r.ephemeralPrivateKey == ephemeralPrivateKey
  {
    var record := PresentedRecord(c, id, opts, now);
    var eph := EphemeralPublicKey(c, ephemeralPrivateKey);
    var signature := SignPayload(c, OfferPayload(HandshakeVersion, record, eph), id.privateKey);
    CreatedOffer(Offer(HandshakeVersion, Some(record), eph, signature), ephemeralPrivateKey)
  }

  /** The checks acceptHandshakeOffer makes before it computes anything, in their order. */
  function CheckOffer(c: Suite, offer: Option<Offer>): (r: Option<HandshakeError>)
    ensures r.None? <==> (offer.Some? && offer.value.version == 1 && VerifyAliasRecord(c, offer.value.aliasRecord)
      && VerifyPayload(c, OfferPayload(1, offer.value.aliasRecord.value, offer.value.ephemeralPublicKey),
                       offer.value.signature, offer.value.aliasRecord.value.publicKey))
    ensures r == Some(UnsupportedOffer) <==> offer.None? || offer.value.version != 1
    ensures r == Some(InvalidOfferRecord) <==> offer.Some? && offer.value.version == 1 && !VerifyAliasRecord(c, offer.value.aliasRecord)
  {
    if offer.None? || offer.value.version != HandshakeVersion then Some(UnsupportedOffer)
    else if !VerifyAliasRecord(c, offer.value.aliasRecord) then Some(InvalidOfferRecord)
    else
      var o := offer.value;
      if !VerifyPayload(c, OfferPayload(o.version, o.aliasRecord.value, o.ephemeralPublicKey), o.signature, o.aliasRecord.value.publicKey)
      then Some(InvalidOfferSignature)
      else None
  }

  /** acceptHandshakeOffer: after the offer checks, agree a secret with the offer's ephemeral
      key, answer with a signed response that echoes that key, and derive the session key
      for (offer alias, response alias). */
  function AcceptHandshakeOffer(c: Suite, offer: Option<Offer>, id: Keypair, ephemeralPrivateKey: Bytes, opts: HandshakeOptions, now: int)
    : (r: Result<Accepted, HandshakeError>)
    ensures CheckOffer(c, offer).Some? ==> r == Err(CheckOffer(c, offer).value)
    ensures CheckOffer(c, offer).None? ==> (r.Ok? <==> Base64.Decode(offer.value.ephemeralPublicKey).Some?)
    ensures r.Ok? ==> CheckOffer(c, offer).None?
    ensures r.Ok? ==> r.value.response.version == HandshakeVersion
    ensures r.Ok? ==> r.value.response.peerEphemeralPublicKey == offer.value.ephemeralPublicKey
    ensures r.Ok? ==> r.value.response.aliasRecord == Some(PresentedRecord(c, id, opts, now))
    ensures r.Ok? ==> r.value.response.ephemeralPublicKey == EphemeralPublicKey(c, ephemeralPrivateKey)
    ensures r.Ok? ==> r.value.sessionKey == DeriveSessionKey(c,
      c.x25519(ephemeralPrivateKey, Base64.Decode(offer.value.ephemeralPublicKey).value),
      offer.value.aliasRecord.value.alias, r.value.response.aliasRecord.value.alias)
  {
    match CheckOffer(c, offer)
    case Some(e) => Err(e)
    case None =>
      var o := offer.value;
      match Base64.Decode(o.ephemeralPublicKey)
      case None => Err(MalformedEphemeralKey)
      case Some(peerEphemeral) =>
        var sharedSecret := c.x25519(ephemeralPrivateKey, peerEphemeral);
        var record := PresentedRecord(c, id, opts, now);
        var eph := EphemeralPublicKey(c, ephemeralPrivateKey);
        var signature := SignPayload(c, ResponsePayload(HandshakeVersion, record, o.ephemeralPublicKey, eph), id.privateKey);
        var sessionKey := DeriveSessionKey(c, sharedSecret, o.aliasRecord.value.alias, record.alias);
        Ok(Accepted(Response(HandshakeVersion, Some(record), o.ephemeralPublicKey, eph, signature), sessionKey))
  }

  /** finalizeHandshake: version, record and signature checks on the response, then the
      binding check that the response echoes this offer's ephemeral key, then the same
      derivation as the responder, with the same (offer alias, response alias) order. */
  function FinalizeHandshake(c: Suite, offer: Option<Offer>, response: Option<Response>, ephemeralPrivateKey: Bytes)
    : (r: Result<Bytes, HandshakeError>)
    ensures response.None? || response.value.version != 1 ==> r == Err(UnsupportedResponse)
    ensures response.Some? && response.value.version == 1 && !VerifyAliasRecord(c, response.value.aliasRecord)
      ==> r == Err(InvalidResponseRecord)
    ensures response.Some? && response.value.version == 1 && VerifyAliasRecord(c, response.value.aliasRecord)
      && !VerifyPayload(c, ResponsePayload(1, response.value.aliasRecord.value, response.value.peerEphemeralPublicKey,
                                           response.value.ephemeralPublicKey),
                        response.value.signature, response.value.aliasRecord.value.publicKey)
      ==> r == Err(InvalidResponseSignature)
    ensures r.Ok? || r == Err(ResponseDoesNotReferenceOffer) ==>
      response.Some? && response.value.version == 1 && VerifyAliasRecord(c, response.value.aliasRecord)
      && VerifyPayload(c, ResponsePayload(1, response.value.aliasRecord.value, response.value.peerEphemeralPublicKey,
                                          response.value.ephemeralPublicKey),
                       response.value.signature, response.value.aliasRecord.value.publicKey)
    ensures r == Err(ResponseDoesNotReferenceOffer) ==>
      offer.None? || offer.value.ephemeralPublicKey != response.value.peerEphemeralPublicKey
    ensures r.Ok? ==> offer.Some? && offer.value.ephemeralPublicKey == response.value.peerEphemeralPublicKey
    ensures r.Ok? ==> (offer.value.aliasRecord.Some? && Base64.Decode(response.value.ephemeralPublicKey).Some?
      && r.value == DeriveSessionKey(c, c.x25519(ephemeralPrivateKey, Base64.Decode(response.value.ephemeralPublicKey).value),
                                     offer.value.aliasRecord.value.alias, response.value.aliasRecord.value.alias))
  {
    if response.None? || response.value.version != HandshakeVersion then Err(UnsupportedResponse)
    else if !VerifyAliasRecord(c, response.value.aliasRecord) then Err(InvalidResponseRecord)
    else
      var rs := response.value;
      if !VerifyPayload(c, ResponsePayload(rs.version, rs.aliasRecord.value, rs.peerEphemeralPublicKey, rs.ephemeralPublicKey),
                        rs.signature, rs.aliasRecord.value.publicKey)
      then Err(InvalidResponseSignature)
      else if offer.None? || offer.value.ephemeralPublicKey != rs.peerEphemeralPublicKey then Err(ResponseDoesNotReferenceOffer)
      else
        match Base64.Decode(rs.ephemeralPublicKey)
        case None => Err(MalformedEphemeralKey)
        case Some(peerEphemeral) =>
          if offer.value.aliasRecord.None? then Err(MissingOfferRecord)
          else
            var sharedSecret := c.x25519(ephemeralPrivateKey, peerEphemeral);
            Ok(DeriveSessionKey(c, sharedSecret, offer.value.aliasRecord.value.alias, rs.aliasRecord.value.alias))
  }

  /** A record option a side may present for identity `id`: none (a fresh record is made), or
      a record that verifies and carries `id`'s public key. */
  predicate PresentableBy(c: Suite, id: Keypair, record: Option<AliasRecord>) {
    record.None? || (VerifyAliasRecord(c, record) && record.value.publicKey == ExportPublicKey(c, id))
  }

  lemma PresentedRecordVerifies(c: Suite, id: Keypair, opts: HandshakeOptions, now: int)
    requires SignaturesVerify(c) && PresentableBy(c, id, opts.aliasRecord)
    ensures var r := PresentedRecord(c, id, opts, now);
      VerifyAliasRecord(c, Some(r)) && r.publicKey == ExportPublicKey(c, id)
  {
    if opts.aliasRecord.None? {
      CreatedRecordVerifies(c, id, AliasOptions(None, None, None, opts.coordinates), now);
    }
  }

  /** An offer made by an identity passes every check of acceptHandshakeOffer. */
  lemma CreatedOfferAccepted(c: Suite, idA: Keypair, ephA: Bytes, optsA: HandshakeOptions, nowA: int,
                             idB: Keypair, ephB: Bytes, optsB: HandshakeOptions, nowB: int)
    requires SignaturesVerify(c) && PresentableBy(c, idA, optsA.aliasRecord)
    ensures var o := CreateHandshakeOffer(c, idA, ephA, optsA, nowA).offer;
      CheckOffer(c, Some(o)).None? && AcceptHandshakeOffer(c, Some(o), idB, ephB, optsB, nowB).Ok?
  {
    var o := CreateHandshakeOffer(c, idA, ephA, optsA, nowA).offer;
    PresentedRecordVerifies(c, idA, optsA, nowA);
    SignedPayloadVerifies(c, OfferPayload(1, o.aliasRecord.value, o.ephemeralPublicKey), idA);
    Base64.RoundTrip(c.x25519Public(ephA));
  }

  /** Key agreement: a well-formed offer, accept, finalize run gives the initiator exactly the
      session key the responder derived, when Diffie-Hellman commutes. */
  lemma HandshakeAgreement(c: Suite, idA: Keypair, ephA: Bytes, optsA: HandshakeOptions, nowA: int,
                           idB: Keypair, ephB: Bytes, optsB: HandshakeOptions, nowB: int)
    requires Sound(c)
    requires PresentableBy(c, idA, optsA.aliasRecord) && PresentableBy(c, idB, optsB.aliasRecord)
    ensures var created := CreateHandshakeOffer(c, idA, ephA, optsA, nowA);
      var accepted := AcceptHandshakeOffer(c, Some(created.offer), idB, ephB, optsB, nowB);
      accepted.Ok? &&
      FinalizeHandshake(c, Some(created.offer), Some(accepted.value.response), created.ephemeralPrivateKey)
        == Ok(accepted.value.sessionKey)
  {
    var created := CreateHandshakeOffer(c, idA, ephA, optsA, nowA);
    CreatedOfferAccepted(c, idA, ephA, optsA, nowA, idB, ephB, optsB, nowB);
    var accepted := AcceptHandshakeOffer(c, Some(created.offer), idB, ephB, optsB, nowB);
    var rs := accepted.value.response;
    PresentedRecordVerifies(c, idB, optsB, nowB);
    SignedPayloadVerifies(c, ResponsePayload(1, rs.aliasRecord.value, rs.peerEphemeralPublicKey, rs.ephemeralPublicKey), idB);
    Base64.RoundTrip(c.x25519Public(ephA));
    Base64.RoundTrip(c.x25519Public(ephB));
    assert c.x25519(ephA, c.x25519Public(ephB)) == c.x25519(ephB, c.x25519Public(ephA));
  }

  /** Anti-replay: a response that answered one offer is refused against any other offer whose
      ephemeral key differs, whatever else the two offers share. */
  lemma StaleResponseRejected(c: Suite, answered: Offer, other: Offer, response: Response, ephemeralPrivateKey: Bytes)
    requires response.peerEphemeralPublicKey == answered.ephemeralPublicKey
    requires other.ephemeralPublicKey != answered.ephemeralPublicKey
    ensures FinalizeHandshake(c, Some(other), Some(response), ephemeralPrivateKey).Err?
  {
  }
}
