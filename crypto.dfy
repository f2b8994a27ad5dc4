/** The collaborators the protocol code calls but does not implement: Ed25519 signing,
    SHA-256, HMAC-SHA256, X25519 key agreement, AES-256-GCM and JSON.stringify. They are
    passed around as one `Suite` of functions; the only facts the protocol relies on are
    collected in `Sound`. Coordinates are here too, as plain data. */
module Crypto {
  import opened Wrappers
  import opened Bytes

  /** A SHA-256 or HMAC-SHA256 digest: always 32 bytes. */
  type Digest = d: Bytes | |d| == 32 witness seq(32, _ => 0)

  /** A DER-exported Ed25519 public key or an Ed25519 signature: never empty. */
  type NonEmptyBytes = b: Bytes | |b| > 0 witness [0]

  /** A synthetic network position (x, y, z); its numerics live outside this model. */
  datatype Coord = Coord(x: real, y: real, z: real)

  const Origin: Coord := Coord(0.0, 0.0, 0.0)

  /** A JSON value, as given to JSON.stringify; object fields keep their order. */
  datatype Json = JNull | JNum(num: real) | JStr(str: string) | JObj(fields: seq<(string, Json)>)

  /** What AES-256-GCM encryption returns besides the IV the caller chose. */
  datatype Sealed = Sealed(ciphertext: Bytes, tag: Bytes)

  datatype Suite = Suite(
    /** the DER SPKI export of the Ed25519 public key of a private key */
    ed25519Public: Bytes -> NonEmptyBytes,
    /** sign(privateKey, message) */
    ed25519Sign: (Bytes, Bytes) -> NonEmptyBytes,
    /** verify(publicKeyDer, message, signature) */
    ed25519Verify: (Bytes, Bytes, Bytes) -> bool,
    sha256: Bytes -> Digest,
    /** hmac(key, message) */
    hmacSha256: (Bytes, Bytes) -> Digest,
    /** the DER SPKI export of the X25519 public key of a private key */
    x25519Public: Bytes -> Bytes,
    /** diffieHellman(privateKey, peerPublicKeyDer) */
    x25519: (Bytes, Bytes) -> Bytes,
    /** seal(plaintext, key, iv, aad) */
    aesGcmSeal: (Bytes, Bytes, Bytes, Bytes) -> Sealed,
    /** open(ciphertext, key, iv, tag, aad): None when the tag does not authenticate */
    aesGcmOpen: (Bytes, Bytes, Bytes, Bytes, Bytes) -> Option<Bytes>,
    /** Buffer.from(JSON.stringify(value)) */
    stringify: Json -> Bytes)

  /** A signature made with a private key verifies under its public key. */
  ghost predicate SignaturesVerify(c: Suite) {
    forall sk: Bytes, m: Bytes :: c.ed25519Verify(c.ed25519Public(sk), m, c.ed25519Sign(sk, m))
  }

  /** Diffie-Hellman commutes: each side combines its private key with the other's public key. */
  ghost predicate AgreementCommutes(c: Suite) {
    forall a: Bytes, b: Bytes :: c.x25519(a, c.x25519Public(b)) == c.x25519(b, c.x25519Public(a))
  }

  /** Decryption inverts encryption under the same key, IV and associated data. */
  ghost predicate OpenInvertsSeal(c: Suite) {
    forall p: Bytes, k: Bytes, iv: Bytes, aad: Bytes ::
      c.aesGcmOpen(c.aesGcmSeal(p, k, iv, aad).ciphertext, k, iv, c.aesGcmSeal(p, k, iv, aad).tag, aad) == Some(p)
  }

  ghost predicate Sound(c: Suite) {
    SignaturesVerify(c) && AgreementCommutes(c) && OpenInvertsSeal(c)
  }

  /** A toy suite meeting Sound, showing that the three assumptions are consistent. */
  function IdealSuite(): Suite {
    Suite(
      sk => [1] + sk,
      (sk, m) => [2] + sk + m,
      (pk, m, sig) => |pk| > 0 && sig == [2] + pk[1..] + m,
      _ => seq(32, _ => 0),
      (_, _) => seq(32, _ => 0),
      sk => sk,
      (a, p) => [],
      (p, k, iv, aad) => Sealed(p, k + iv + aad),
      (ct, k, iv, tag, aad) => if tag == k + iv + aad then Some(ct) else None,
      _ => [])
  }

  lemma IdealSuiteIsSound()
    ensures Sound(IdealSuite())
  {
    var c := IdealSuite();
    forall sk: Bytes, m: Bytes ensures c.ed25519Verify(c.ed25519Public(sk), m, c.ed25519Sign(sk, m)) {
      assert ([1] + sk)[1..] == sk;
    }
  }
}
