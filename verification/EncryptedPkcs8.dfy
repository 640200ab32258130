// Wrapping a private key as an encrypted PKCS#8 PEM and opening it again (RFC 8018 section 6.2,
// RFC 5084 section 3.2). Key derivation and the cipher are parameters.
module EncryptedPkcs8 {
  import opened Base
  import opened Der
  import opened DerTheorems
  import Pem

  const PBKDF2_ITERATIONS := 600_000
  const PBKDF2_SALT_LEN := 16
  const KEY_LEN := 32
  const GCM_NONCE_LEN := 12
  const GCM_TAG_LEN := 16

  const ID_PBES2: seq<int> := [1, 2, 840, 113549, 1, 5, 13]
  const ID_PBKDF2: seq<int> := [1, 2, 840, 113549, 1, 5, 12]
  const ID_HMAC_SHA256: seq<int> := [1, 2, 840, 113549, 2, 9]
  const ID_AES256_GCM: seq<int> := [2, 16, 840, 1, 101, 3, 4, 1, 46]

  datatype KeyError = MissingKeyPassphrase | KeyDecryptionFailed | BadDer(e: DerError)

  // PBKDF2 and AES-GCM. Sealing gives a ciphertext and a tag; opening gives the plaintext or
  // fails authentication.
  datatype Primitives = Primitives(
    derive: (Text, Bytes, nat, nat) -> Bytes,
    seal: (Bytes, Bytes, Bytes) -> (Bytes, Bytes),
    open: (Bytes, Bytes, Bytes, Bytes) -> Option<Bytes>
  ) {
    ghost predicate Ideal() {
      && (forall key, nonce, pt :: |seal(key, nonce, pt).0| == |pt| && |seal(key, nonce, pt).1| == GCM_TAG_LEN)
      && (forall key, nonce, ct, tag, pt ::
            open(key, nonce, ct, tag) == Some(pt) <==> seal(key, nonce, pt) == (ct, tag))
    }
  }

  // The fields the DER structure carries; object identifiers as their encoded bodies.
  datatype Envelope = Envelope(
    scheme: Bytes, kdf: Bytes, salt: Bytes, iterations: nat, keyLength: nat, prf: Bytes,
    cipher: Bytes, nonce: Bytes, tagLength: nat, data: Bytes
  )

  // ---------- emitting ----------

  function PrfAlg(e: Envelope): seq<Bytes> {
    [TlvBytes(OBJECT_IDENTIFIER, e.prf), TlvBytes(NULL, [])]
  }

  function KdfParams(e: Envelope): seq<Bytes> {
    [TlvBytes(OCTET_STRING, e.salt), TlvBytes(INTEGER, IntegerBody(e.iterations)),
     TlvBytes(INTEGER, IntegerBody(e.keyLength)), DerSequence(PrfAlg(e))]
  }

  function KdfAlg(e: Envelope): seq<Bytes> {
    [TlvBytes(OBJECT_IDENTIFIER, e.kdf), DerSequence(KdfParams(e))]
  }

  function CipherParams(e: Envelope): seq<Bytes> {
    [TlvBytes(OCTET_STRING, e.nonce), TlvBytes(INTEGER, IntegerBody(e.tagLength))]
  }

  function CipherAlg(e: Envelope): seq<Bytes> {
    [TlvBytes(OBJECT_IDENTIFIER, e.cipher), DerSequence(CipherParams(e))]
  }

  function SchemeParams(e: Envelope): seq<Bytes> {
    [DerSequence(KdfAlg(e)), DerSequence(CipherAlg(e))]
  }

  function SchemeAlg(e: Envelope): seq<Bytes> {
    [TlvBytes(OBJECT_IDENTIFIER, e.scheme), DerSequence(SchemeParams(e))]
  }

  function Outer(e: Envelope): seq<Bytes> {
    [DerSequence(SchemeAlg(e)), TlvBytes(OCTET_STRING, e.data)]
  }

  function Emit(e: Envelope): Bytes {
    DerSequence(Outer(e))
  }

  // The bodies of the profile's object identifiers.
  function Body(parts: seq<int>): Bytes {
    match OidBody(parts)
    case Ok(b) => b
    case Err(_) => []
  }

  function FixedProfile(salt: Bytes, nonce: Bytes, data: Bytes): Envelope {
    Envelope(Body(ID_PBES2), Body(ID_PBKDF2), salt, PBKDF2_ITERATIONS, KEY_LEN, Body(ID_HMAC_SHA256),
             Body(ID_AES256_GCM), nonce, GCM_TAG_LEN, data)
  }

  function Sealed(p: Primitives, plaintext: Bytes, passphrase: Text, salt: Bytes, nonce: Bytes): Bytes {
    var kek := p.derive(passphrase, salt, PBKDF2_ITERATIONS, KEY_LEN);
    var (ct, tag) := p.seal(kek, nonce, plaintext);
    ct + tag
  }

  function Wrapped(p: Primitives, plaintext: Bytes, passphrase: Text, salt: Bytes, nonce: Bytes)
    : Result<Text, KeyError>
  {
    if passphrase == [] then Err(MissingKeyPassphrase)
    else Ok(Pem.Armored(Emit(FixedProfile(salt, nonce, Sealed(p, plaintext, passphrase, salt, nonce)))))
  }

  function Lift<T>(r: Result<T, DerError>): Result<T, KeyError> {
    match r
    case Ok(v) => Ok(v)
    case Err(e) => Err(BadDer(e))
  }

  method WriteOid(parts: seq<int>) returns (r: Bytes)
    requires OidBody(parts).Ok?
    ensures r == TlvBytes(OBJECT_IDENTIFIER, Body(parts))
  {
    var body := WriteOidBody(parts);
    r := Tlv(OBJECT_IDENTIFIER, body.value);
  }

  method WriteInteger(n: nat) returns (r: Bytes)
    requires n < INT32
    ensures r == TlvBytes(INTEGER, IntegerBody(n))
  {
    var t := Integer(n);
    r := t.value;
  }

  // The random salt and nonce are parameters.
  method WrapEncryptedPkcs8(p: Primitives, plaintext: Bytes, passphrase: Text, salt: Bytes, nonce: Bytes)
    returns (r: Result<Text, KeyError>)
    requires |salt| == PBKDF2_SALT_LEN && |nonce| == GCM_NONCE_LEN
    ensures r == Wrapped(p, plaintext, passphrase, salt, nonce)
  {
    hide OidBody, Body, Subidentifiers, TlvBytes, Concat, IntegerBody, Pem.Armored;
    if passphrase == [] {
      return Err(MissingKeyPassphrase);
    }
    ProfileOids();
    var kek := p.derive(passphrase, salt, PBKDF2_ITERATIONS, KEY_LEN);
    var (ct, tag) := p.seal(kek, nonce, plaintext);
    var kdfAlg := WriteKdfAlg(salt);
    var cipherAlg := WriteCipherAlg(nonce);
    var params := Sequence([kdfAlg, cipherAlg]);
    var scheme := WriteOid(ID_PBES2);
    var algId := Sequence([scheme, params]);
    var encryptedData := ConcatParts([ct, tag]);
    ConcatPair(ct, tag);
    var octets := Tlv(OCTET_STRING, encryptedData);
    var outer := Sequence([algId, octets]);
    var pem := Pem.ToPem(outer);
    return Ok(pem);
  }

  method WriteKdfAlg(salt: Bytes) returns (alg: Bytes)
    ensures alg == DerSequence(KdfAlg(FixedProfile(salt, [], [])))
  {
    hide OidBody, Body, Subidentifiers, TlvBytes, Concat, IntegerBody;
    ProfileOids();
    var kdf := WriteOid(ID_PBKDF2);
    var octets := Tlv(OCTET_STRING, salt);
    var iterations := WriteInteger(PBKDF2_ITERATIONS);
    var keyLength := WriteInteger(KEY_LEN);
    var prf := WriteOid(ID_HMAC_SHA256);
    var nothing := Tlv(NULL, []);
    var prfAlg := Sequence([prf, nothing]);
    var params := Sequence([octets, iterations, keyLength, prfAlg]);
    alg := Sequence([kdf, params]);
  }

  method WriteCipherAlg(nonce: Bytes) returns (alg: Bytes)
    ensures alg == DerSequence(CipherAlg(FixedProfile([], nonce, [])))
  {
    hide OidBody, Body, Subidentifiers, TlvBytes, Concat, IntegerBody;
    ProfileOids();
    var cipher := WriteOid(ID_AES256_GCM);
    var octets := Tlv(OCTET_STRING, nonce);
    var tagLength := WriteInteger(GCM_TAG_LEN);
    var params := Sequence([octets, tagLength]);
    alg := Sequence([cipher, params]);
  }

  lemma ProfileOids()
    ensures OidBody(ID_PBES2).Ok? && OidBody(ID_PBKDF2).Ok?
    ensures OidBody(ID_HMAC_SHA256).Ok? && OidBody(ID_AES256_GCM).Ok?
  {
    hide Subidentifiers;
    assert forall i :: 0 <= i < |ID_PBES2| ==> ID_PBES2[i] >= 0;
    assert forall i :: 0 <= i < |ID_PBKDF2| ==> ID_PBKDF2[i] >= 0;
    assert forall i :: 0 <= i < |ID_HMAC_SHA256| ==> ID_HMAC_SHA256[i] >= 0;
    assert forall i :: 0 <= i < |ID_AES256_GCM| ==> ID_AES256_GCM[i] >= 0;
  }

  lemma ConcatPair(a: Bytes, b: Bytes)
    ensures Concat([a, b]) == a + b
  {
    assert [a, b][1..] == [b];
    ConcatOne(b);
  }

  lemma ConcatOne(b: Bytes)
    ensures Concat([b]) == b
  {
    assert [b][1..] == [];
    assert Concat([b]) == b + Concat([]);
    assert b + [] == b;
  }

  // ---------- opening ----------

  datatype KdfFields = KdfFields(kdf: Bytes, salt: Bytes, iterations: nat, keyLength: nat, prf: Bytes)

  datatype CipherFields = CipherFields(cipher: Bytes, nonce: Bytes, tagLength: nat)

  function WalkKdf(kdfAlg: Bytes): Result<KdfFields, DerError> {
    var kdf :- Expect(kdfAlg, 0, OBJECT_IDENTIFIER);
    var params :- Expect(kdfAlg, kdf.total, SEQUENCE);
    var salt :- Expect(params.content, 0, OCTET_STRING);
    var iter :- Expect(params.content, salt.total, INTEGER);
    var keyLen :- Expect(params.content, salt.total + iter.total, INTEGER);
    var prfAlg :- Expect(params.content, salt.total + iter.total + keyLen.total, SEQUENCE);
    var prf :- Expect(prfAlg.content, 0, OBJECT_IDENTIFIER);
    var iterations :- UintOf(iter.content);
    var keyLength :- UintOf(keyLen.content);
    Ok(KdfFields(kdf.content, salt.content, iterations, keyLength, prf.content))
  }

  function WalkCipher(encAlg: Bytes): Result<CipherFields, DerError> {
    var cipher :- Expect(encAlg, 0, OBJECT_IDENTIFIER);
    var params :- Expect(encAlg, cipher.total, SEQUENCE);
    var nonce :- Expect(params.content, 0, OCTET_STRING);
    var tagLen :- Expect(params.content, nonce.total, INTEGER);
    var tagLength :- UintOf(tagLen.content);
    Ok(CipherFields(cipher.content, nonce.content, tagLength))
  }

  function WalkScheme(algId: Bytes, data: Bytes): Result<Envelope, DerError> {
    var scheme :- Expect(algId, 0, OBJECT_IDENTIFIER);
    var params :- Expect(algId, scheme.total, SEQUENCE);
    var kdfAlg :- Expect(params.content, 0, SEQUENCE);
    var encAlg :- Expect(params.content, kdfAlg.total, SEQUENCE);
    var k :- WalkKdf(kdfAlg.content);
    var c :- WalkCipher(encAlg.content);
    Ok(Envelope(scheme.content, k.kdf, k.salt, k.iterations, k.keyLength, k.prf,
                c.cipher, c.nonce, c.tagLength, data))
  }

  function Walk(der: Bytes): Result<Envelope, DerError> {
    var outer :- Expect(der, 0, SEQUENCE);
    var algId :- Expect(outer.content, 0, SEQUENCE);
    var data :- Expect(outer.content, algId.total, OCTET_STRING);
    WalkScheme(algId.content, data.content)
  }

  predicate ProfileOk(e: Envelope) {
    && e.scheme == Body(ID_PBES2)
    && e.kdf == Body(ID_PBKDF2)
    && e.prf == Body(ID_HMAC_SHA256)
    && e.cipher == Body(ID_AES256_GCM)
    && e.keyLength == KEY_LEN
    && e.iterations >= 100_000
    && e.tagLength == GCM_TAG_LEN
    && |e.nonce| == GCM_NONCE_LEN
  }

  function Decrypt(p: Primitives, e: Envelope, passphrase: Text): Result<Bytes, KeyError> {
    if !ProfileOk(e) then Err(KeyDecryptionFailed)
    else if |e.data| < GCM_TAG_LEN then Err(BadDer(TokenMalformed))
    else
      var kek := p.derive(passphrase, e.salt, e.iterations, e.keyLength);
      var cut := |e.data| - GCM_TAG_LEN;
      match p.open(kek, e.nonce, e.data[..cut], e.data[cut..])
      case Some(pt) => Ok(pt)
      case None => Err(KeyDecryptionFailed)
  }

  function Unwrapped(p: Primitives, pem: Text, passphrase: Text): Result<Bytes, KeyError> {
    if passphrase == [] then Err(MissingKeyPassphrase)
    else
      match Pem.FromPem(pem)
      case None => Err(BadDer(TokenMalformed))
      case Some(der) =>
        var e :- Lift(Walk(der));
        Decrypt(p, e, passphrase)
  }

  method ExpectTag(buf: Bytes, offset: int, tag: Byte) returns (r: Result<ParsedTlv, DerError>)
    ensures r == Expect(buf, offset, tag)
  {
    var t :- ParseTlv(buf, offset);
    if t.tag != tag {
      return Err(TokenMalformed);
    }
    return Ok(t);
  }

  method ParseKdf(kdfAlg: Bytes) returns (r: Result<KdfFields, DerError>)
    ensures r == WalkKdf(kdfAlg)
  {
    hide Expect, UintOf;
    var kdf :- ExpectTag(kdfAlg, 0, OBJECT_IDENTIFIER);
    var params :- ExpectTag(kdfAlg, kdf.total, SEQUENCE);
    var salt :- ExpectTag(params.content, 0, OCTET_STRING);
    var iter :- ExpectTag(params.content, salt.total, INTEGER);
    var keyLen :- ExpectTag(params.content, salt.total + iter.total, INTEGER);
    var prfAlg :- ExpectTag(params.content, salt.total + iter.total + keyLen.total, SEQUENCE);
    var prf :- ExpectTag(prfAlg.content, 0, OBJECT_IDENTIFIER);
    var iterations :- BufToUint(iter.content);
    var keyLength :- BufToUint(keyLen.content);
    return Ok(KdfFields(kdf.content, salt.content, iterations, keyLength, prf.content));
  }

  method ParseCipher(encAlg: Bytes) returns (r: Result<CipherFields, DerError>)
    ensures r == WalkCipher(encAlg)
  {
    hide Expect, UintOf;
    var cipher :- ExpectTag(encAlg, 0, OBJECT_IDENTIFIER);
    var params :- ExpectTag(encAlg, cipher.total, SEQUENCE);
    var nonce :- ExpectTag(params.content, 0, OCTET_STRING);
    var tagLen :- ExpectTag(params.content, nonce.total, INTEGER);
    var tagLength :- BufToUint(tagLen.content);
    return Ok(CipherFields(cipher.content, nonce.content, tagLength));
  }

  method ParseEnvelope(der: Bytes) returns (r: Result<Envelope, DerError>)
    ensures r == Walk(der)
  {
    hide Expect, WalkKdf, WalkCipher;
    var outer :- ExpectTag(der, 0, SEQUENCE);
    var algId :- ExpectTag(outer.content, 0, SEQUENCE);
    var data :- ExpectTag(outer.content, algId.total, OCTET_STRING);
    var scheme :- ExpectTag(algId.content, 0, OBJECT_IDENTIFIER);
    var params :- ExpectTag(algId.content, scheme.total, SEQUENCE);
    var kdfAlg :- ExpectTag(params.content, 0, SEQUENCE);
    var encAlg :- ExpectTag(params.content, kdfAlg.total, SEQUENCE);
    var k :- ParseKdf(kdfAlg.content);
    var c :- ParseCipher(encAlg.content);
    return Ok(Envelope(scheme.content, k.kdf, k.salt, k.iterations, k.keyLength, k.prf,
                       c.cipher, c.nonce, c.tagLength, data.content));
  }

  method UnwrapEncryptedPkcs8(p: Primitives, pem: Text, passphrase: Text) returns (r: Result<Bytes, KeyError>)
    ensures r == Unwrapped(p, pem, passphrase)
  {
    hide Walk, ProfileOk, Pem.FromPem;
    if passphrase == [] {
      return Err(MissingKeyPassphrase);
    }
    var der := Pem.FromPem(pem);
    if der.None? {
      return Err(BadDer(TokenMalformed));
    }
    var parsed := ParseEnvelope(der.value);
    var e :- Lift(parsed);
    return Decrypt(p, e, passphrase);
  }
}
