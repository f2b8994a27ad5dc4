/** Long-term identities, aliases and signed, expiring alias records (src/identity.js). */
module Identity {
  import opened Wrappers
  import opened Bytes
  import opened Crypto
  import Base64

  const DefaultAliasTtlMs: int := 10 * 60 * 1000
  const AliasBytes: nat := 6

  /** A long-term Ed25519 keypair, given by its private key. */
  datatype Keypair = Keypair(privateKey: Bytes)

  function PublicKeyDer(c: Suite, id: Keypair): NonEmptyBytes {
    c.ed25519Public(id.privateKey)
  }

  /** exportPublicKey: the DER export as base64 text, never empty, decoding back to the key. */
  function ExportPublicKey(c: Suite, id: Keypair): (t: string)
    ensures t != ""
    ensures Base64.Decode(t) == Some(PublicKeyDer(c, id))
  {
    Base64.EncodeEmptyIff(PublicKeyDer(c, id));
    Base64.RoundTrip(PublicKeyDer(c, id));
    Base64.Encode(PublicKeyDer(c, id))
  }

  /** deriveAlias: the first 6 bytes of SHA-256 of the DER public key, as 12 lowercase hex
      digits that decode back to exactly those bytes. */
  function DeriveAlias(c: Suite, publicKeyDer: Bytes): (a: string)
    ensures |a| == 2 * AliasBytes
    ensures forall i :: 0 <= i < |a| ==> IsLowerHexChar(a[i])
    ensures FromHex(a) == Some(c.sha256(publicKeyDer)[..AliasBytes])
  {
    HexRoundTrip(c.sha256(publicKeyDer)[..AliasBytes]);
    ToHex(c.sha256(publicKeyDer)[..AliasBytes])
  }

  /** An alias record; a missing publicKey or signature is the (falsy) empty string. */
  datatype AliasRecord = AliasRecord(
    alias: string,
    publicKey: string,
    expiresAt: int,
    coordinates: Option<Coord>,
    signature: string)

  function CoordinatesJson(o: Option<Coord>): Json {
    match o
    case None => JNull
    case Some(p) => JObj([("x", JNum(p.x)), ("y", JNum(p.y)), ("z", JNum(p.z))])
  }

  function FieldNames(fields: seq<(string, Json)>): seq<string> {
    seq(|fields|, i requires 0 <= i < |fields| => fields[i].0)
  }

  /** The object canonicalizeAliasRecord stringifies: exactly alias, publicKey, expiresAt and
      coordinates (null when absent), in that order; the signature is not among them. */
  function CanonicalJson(r: AliasRecord): (j: Json)
    ensures j.JObj? && FieldNames(j.fields) == ["alias", "publicKey", "expiresAt", "coordinates"]
  {
    JObj([("alias", JStr(r.alias)),
          ("publicKey", JStr(r.publicKey)),
          ("expiresAt", JNum(r.expiresAt as real)),
          ("coordinates", CoordinatesJson(r.coordinates))])
  }

  /** Two records have the same canonical object exactly when they agree on the four signed
      fields: changing any of them changes what is signed. */
  lemma CanonicalJsonIdentifiesSignedFields(a: AliasRecord, b: AliasRecord)
    ensures CanonicalJson(a) == CanonicalJson(b) <==>
      a.alias == b.alias && a.publicKey == b.publicKey && a.expiresAt == b.expiresAt && a.coordinates == b.coordinates
  {
    if CanonicalJson(a) == CanonicalJson(b) {
      assert CanonicalJson(a).fields[2] == CanonicalJson(b).fields[2];
      assert CanonicalJson(a).fields[3] == CanonicalJson(b).fields[3];
      match a.coordinates {
        case None =>
        case Some(p) =>
          assert CoordinatesJson(a.coordinates).fields[0] == CoordinatesJson(b.coordinates).fields[0];
          assert CoordinatesJson(a.coordinates).fields[1] == CoordinatesJson(b.coordinates).fields[1];
          assert CoordinatesJson(a.coordinates).fields[2] == CoordinatesJson(b.coordinates).fields[2];
      }
    }
  }

  /** The signature is not part of what is signed: replacing it leaves the signed bytes as they were. */
  lemma SignatureNotSigned(c: Suite, r: AliasRecord, s: string)
    ensures CanonicalizeAliasRecord(c, r.(signature := s)) == CanonicalizeAliasRecord(c, r)
  {
  }

  /** canonicalizeAliasRecord: the signed bytes. */
  function CanonicalizeAliasRecord(c: Suite, r: AliasRecord): Bytes {
    c.stringify(CanonicalJson(r))
  }

  /** The whole record as a JSON object, in the key order createAliasRecord builds it. */
  function AliasRecordJson(r: AliasRecord): Json {
    JObj([("alias", JStr(r.alias)),
          ("publicKey", JStr(r.publicKey)),
          ("expiresAt", JNum(r.expiresAt as real)),
          ("coordinates", CoordinatesJson(r.coordinates)),
          ("signature", JStr(r.signature))])
  }

  /** signAliasRecord: a non-empty base64 signature over the canonical bytes. */
  function SignAliasRecord(c: Suite, r: AliasRecord, privateKey: Bytes): (s: string)
    ensures s != ""
    ensures Base64.Decode(s) == Some(c.ed25519Sign(privateKey, CanonicalizeAliasRecord(c, r)))
  {
    var sig := c.ed25519Sign(privateKey, CanonicalizeAliasRecord(c, r));
    Base64.EncodeEmptyIff(sig);
    Base64.RoundTrip(sig);
    Base64.Encode(sig)
  }

  /** verifyAliasRecord: false for a missing record, signature or public key; otherwise the
      Ed25519 check of the signature over the canonical bytes under the embedded key. */
  function VerifyAliasRecord(c: Suite, r: Option<AliasRecord>): (ok: bool)
    ensures ok ==> r.Some? && r.value.signature != "" && r.value.publicKey != ""
    ensures ok ==> exists pk, sig ::
      Base64.Decode(r.value.publicKey) == Some(pk) && Base64.Decode(r.value.signature) == Some(sig)
      && c.ed25519Verify(pk, CanonicalizeAliasRecord(c, r.value), sig)
  {
    if r.None? || r.value.signature == "" || r.value.publicKey == "" then false
    else
      match (Base64.Decode(r.value.publicKey), Base64.Decode(r.value.signature))
      case (Some(pk), Some(sig)) => c.ed25519Verify(pk, CanonicalizeAliasRecord(c, r.value), sig)
      case _ => false
  }

  /** The options of createAliasRecord; None marks an absent property. */
  datatype AliasOptions = AliasOptions(
    alias: Option<string>,
    ttlMs: Option<int>,
    expiresAt: Option<int>,
    coordinates: Option<Coord>)

  const NoAliasOptions: AliasOptions := AliasOptions(None, None, None, None)

  /** createAliasRecord at clock time `now`. */
  function CreateAliasRecord(c: Suite, id: Keypair, opts: AliasOptions, now: int): (r: AliasRecord)
    ensures opts.alias.Some? && opts.alias.value != "" ==> r.alias == opts.alias.value
    ensures opts.alias.None? || opts.alias.value == "" ==> r.alias == DeriveAlias(c, PublicKeyDer(c, id))
    ensures opts.expiresAt.Some? && opts.expiresAt.value != 0 ==> r.expiresAt == opts.expiresAt.value
    ensures (opts.expiresAt.None? || opts.expiresAt.value == 0) && opts.ttlMs.Some? && opts.ttlMs.value != 0
      ==> r.expiresAt == now + opts.ttlMs.value
    ensures (opts.expiresAt.None? || opts.expiresAt.value == 0) && (opts.ttlMs.None? || opts.ttlMs.value == 0)
      ==> r.expiresAt == now + DefaultAliasTtlMs
    ensures r.publicKey == ExportPublicKey(c, id) && r.coordinates == opts.coordinates
    ensures r.signature == SignAliasRecord(c, r, id.privateKey)
  {
    var alias := if opts.alias.Some? && opts.alias.value != "" then opts.alias.value
                 else DeriveAlias(c, PublicKeyDer(c, id));
    var ttlMs := if opts.ttlMs.Some? && opts.ttlMs.value != 0 then opts.ttlMs.value else DefaultAliasTtlMs;
    var expiresAt := if opts.expiresAt.Some? && opts.expiresAt.value != 0 then opts.expiresAt.value else now + ttlMs;
    var unsigned := AliasRecord(alias, ExportPublicKey(c, id), expiresAt, opts.coordinates, "");
    unsigned.(signature := SignAliasRecord(c, unsigned, id.privateKey))
  }

  /** A record created by an identity verifies, whatever the options and the clock. */
  lemma CreatedRecordVerifies(c: Suite, id: Keypair, opts: AliasOptions, now: int)
    requires SignaturesVerify(c)
    ensures VerifyAliasRecord(c, Some(CreateAliasRecord(c, id, opts, now)))
  {
    var r := CreateAliasRecord(c, id, opts, now);
    var m := CanonicalizeAliasRecord(c, r);
    assert c.ed25519Verify(c.ed25519Public(id.privateKey), m, c.ed25519Sign(id.privateKey, m));
  }
}
