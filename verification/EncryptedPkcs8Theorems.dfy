// The DER walk undoes the emitter through all its levels, and a wrapped key opens to its
// plaintext exactly below the parser's 31-bit limit.
module EncryptedPkcs8Theorems {
  import opened Base
  import opened Der
  import opened DerTheorems
  import opened EncryptedPkcs8
  import Pem

  // ---------- one part of a sequence ----------

  lemma PartParses(parts: seq<Bytes>, k: nat, tag: Byte, c: Bytes)
    requires k < |parts| && parts[k] == TlvBytes(tag, c) && |c| < INT32
    ensures Expect(Concat(parts), |Concat(parts[..k])|, tag) == Ok(ParsedTlv(tag, c, |parts[k]|))
  {
    hide TlvBytes, ParseAt, Concat;
    ConcatSplit(parts, k);
    ParseOfTlv(Concat(parts[..k]), tag, c, Concat(parts[k + 1..]));
  }

  lemma PartIsSmaller(parts: seq<Bytes>, k: nat, tag: Byte, c: Bytes)
    requires k < |parts| && parts[k] == TlvBytes(tag, c)
    ensures |c| < |Concat(parts)|
  {
    ConcatSplit(parts, k);
  }

  lemma Offsets(parts: seq<Bytes>, k: nat)
    requires k <= |parts|
    ensures k == 0 ==> |Concat(parts[..k])| == 0
    ensures k == 1 ==> |Concat(parts[..k])| == |parts[0]|
    ensures k == 2 ==> |Concat(parts[..k])| == |parts[0]| + |parts[1]|
    ensures k == 3 ==> |Concat(parts[..k])| == |parts[0]| + |parts[1]| + |parts[2]|
    ensures k == 4 ==> |Concat(parts[..k])| == |parts[0]| + |parts[1]| + |parts[2]| + |parts[3]|
  {
    if k > 0 {
      Offsets(parts, k - 1);
      ConcatPush(parts, k - 1);
    }
  }

  // The first two parts of a sequence, and their contents' sizes.
  lemma TwoParts(parts: seq<Bytes>, t0: Byte, c0: Bytes, t1: Byte, c1: Bytes)
    requires |parts| >= 2 && parts[0] == TlvBytes(t0, c0) && parts[1] == TlvBytes(t1, c1)
    requires |Concat(parts)| < INT32
    ensures |c0| < INT32 && |c1| < INT32
    ensures Expect(Concat(parts), 0, t0) == Ok(ParsedTlv(t0, c0, |parts[0]|))
    ensures Expect(Concat(parts), |parts[0]|, t1) == Ok(ParsedTlv(t1, c1, |parts[1]|))
  {
    PartIsSmaller(parts, 0, t0, c0);
    PartIsSmaller(parts, 1, t1, c1);
    Offsets(parts, 0);
    Offsets(parts, 1);
    PartParses(parts, 0, t0, c0);
    PartParses(parts, 1, t1, c1);
  }

  lemma KdfParamsParse(e: Envelope)
    requires |Concat(KdfParams(e))| < INT32
    ensures
      var c := Concat(KdfParams(e));
      var p := KdfParams(e);
      && Expect(c, 0, OCTET_STRING) == Ok(ParsedTlv(OCTET_STRING, e.salt, |p[0]|))
      && Expect(c, |p[0]|, INTEGER) == Ok(ParsedTlv(INTEGER, IntegerBody(e.iterations), |p[1]|))
      && Expect(c, |p[0]| + |p[1]|, INTEGER) == Ok(ParsedTlv(INTEGER, IntegerBody(e.keyLength), |p[2]|))
      && Expect(c, |p[0]| + |p[1]| + |p[2]|, SEQUENCE) == Ok(ParsedTlv(SEQUENCE, Concat(PrfAlg(e)), |p[3]|))
      && |Concat(PrfAlg(e))| < INT32
  {
    hide TlvBytes, Expect, Concat, IntegerBody;
    var p := KdfParams(e);
    TwoParts(p, OCTET_STRING, e.salt, INTEGER, IntegerBody(e.iterations));
    PartIsSmaller(p, 2, INTEGER, IntegerBody(e.keyLength));
    PartIsSmaller(p, 3, SEQUENCE, Concat(PrfAlg(e)));
    Offsets(p, 2);
    Offsets(p, 3);
    PartParses(p, 2, INTEGER, IntegerBody(e.keyLength));
    PartParses(p, 3, SEQUENCE, Concat(PrfAlg(e)));
  }

  // INTEGERs the emitter accepts come back.
  lemma IntegerReads(n: nat)
    requires n < INT32
    ensures UintOf(IntegerBody(n)) == Ok(n)
  {
    IntegerIsMinimal(n, IntegerBody(n));
  }

  predicate Emittable(e: Envelope) {
    e.iterations < INT32 && e.keyLength < INT32 && e.tagLength < INT32
  }

  // Everything inside the algorithm identifier.
  lemma SchemeParses(e: Envelope)
    requires |Concat(SchemeAlg(e))| < INT32
    ensures
      var a := Concat(SchemeAlg(e));
      var s := Concat(SchemeParams(e));
      && Expect(a, 0, OBJECT_IDENTIFIER) == Ok(ParsedTlv(OBJECT_IDENTIFIER, e.scheme, |SchemeAlg(e)[0]|))
      && Expect(a, |SchemeAlg(e)[0]|, SEQUENCE) == Ok(ParsedTlv(SEQUENCE, s, |SchemeAlg(e)[1]|))
      && Expect(s, 0, SEQUENCE) == Ok(ParsedTlv(SEQUENCE, Concat(KdfAlg(e)), |SchemeParams(e)[0]|))
      && Expect(s, |SchemeParams(e)[0]|, SEQUENCE)
         == Ok(ParsedTlv(SEQUENCE, Concat(CipherAlg(e)), |SchemeParams(e)[1]|))
      && |Concat(KdfAlg(e))| < INT32 && |Concat(CipherAlg(e))| < INT32
  {
    hide TlvBytes, Expect, Concat;
    TwoParts(SchemeAlg(e), OBJECT_IDENTIFIER, e.scheme, SEQUENCE, Concat(SchemeParams(e)));
    TwoParts(SchemeParams(e), SEQUENCE, Concat(KdfAlg(e)), SEQUENCE, Concat(CipherAlg(e)));
  }

  lemma KdfWalks(e: Envelope)
    requires Emittable(e) && |Concat(KdfAlg(e))| < INT32
    ensures WalkKdf(Concat(KdfAlg(e))) == Ok(KdfFields(e.kdf, e.salt, e.iterations, e.keyLength, e.prf))
  {
    hide TlvBytes, Expect, Concat, IntegerBody, UintOf;
    TwoParts(KdfAlg(e), OBJECT_IDENTIFIER, e.kdf, SEQUENCE, Concat(KdfParams(e)));
    KdfParamsParse(e);
    TwoParts(PrfAlg(e), OBJECT_IDENTIFIER, e.prf, NULL, []);
    IntegerReads(e.iterations);
    IntegerReads(e.keyLength);
    hide KdfAlg, KdfParams, PrfAlg;
  }

  lemma CipherWalks(e: Envelope)
    requires Emittable(e) && |Concat(CipherAlg(e))| < INT32
    ensures WalkCipher(Concat(CipherAlg(e))) == Ok(CipherFields(e.cipher, e.nonce, e.tagLength))
  {
    hide TlvBytes, Expect, Concat, IntegerBody, UintOf;
    TwoParts(CipherAlg(e), OBJECT_IDENTIFIER, e.cipher, SEQUENCE, Concat(CipherParams(e)));
    TwoParts(CipherParams(e), OCTET_STRING, e.nonce, INTEGER, IntegerBody(e.tagLength));
    IntegerReads(e.tagLength);
    hide CipherAlg, CipherParams;
  }

  // The walk over any emitted envelope below the limit recovers every field.
  lemma WalkOfEmit(e: Envelope)
    requires Emittable(e) && |Concat(Outer(e))| < INT32
    ensures Walk(Emit(e)) == Ok(e)
  {
    hide TlvBytes, Expect, Concat, IntegerBody, UintOf, WalkKdf, WalkCipher;
    var outer := Outer(e);
    PartParses([Emit(e)], 0, SEQUENCE, Concat(outer));
    Offsets([Emit(e)], 0);
    ConcatOne(Emit(e));
    TwoParts(outer, SEQUENCE, Concat(SchemeAlg(e)), OCTET_STRING, e.data);
    SchemeParses(e);
    KdfWalks(e);
    CipherWalks(e);
  }

  // ---------- beyond the limit ----------

  // The outer content comes back shortened.
  lemma OuterShortened(c: Bytes, tag: Byte)
    requires |c| >= INT32
    ensures
      var r := Expect(TlvBytes(tag, c), 0, tag);
      r.Ok? ==> |r.value.content| < |c| && r.value.content == c[..|r.value.content|]
  {
    var e := EncodeLen(|c|);
    var buf := TlvBytes(tag, c);
    var start := 1 + |e|;
    HeaderOfTlv([], tag, c, []);
    assert [] + buf + [] == buf;
    assert |e| == 5;
    hide ReadHeader, EncodeLen;
    assert buf[start..] == c;
    forall n | 0 <= n <= |c| ensures buf[start..start + n] == c[..n] {
      assert buf[start..][..n] == buf[start..start + n];
    }
  }

  // A TLV read from a shortened buffer is the one the whole buffer has, or is refused.
  lemma ShortenedParse(buf: Bytes, m: nat, offset: nat)
    requires m <= |buf|
    requires ParseAt(buf, offset).Ok? && ReadHeader(buf, offset).value.len >= 0
    ensures ParseAt(buf[..m], offset).Err? || ParseAt(buf[..m], offset) == ParseAt(buf, offset)
  {
    ShortenedHeader(buf, m, offset);
    hide ReadHeader;
    var h := ReadHeader(buf, offset).value;
    assert h.start + h.len <= m ==> buf[..m][h.start..h.start + h.len] == buf[h.start..h.start + h.len];
  }

  lemma ShortenedHeader(buf: Bytes, m: nat, offset: nat)
    requires m <= |buf|
    ensures ReadHeader(buf[..m], offset).Err? || ReadHeader(buf[..m], offset) == ReadHeader(buf, offset)
  {
    if offset + 1 < m && buf[offset + 1] >= 0x80 {
      ShortenedLength(buf, m, offset + 2, buf[offset + 1] - 0x80, 0);
    }
  }

  lemma {:induction false} ShortenedLength(buf: Bytes, m: nat, at: nat, n: nat, len: int)
    requires m <= |buf|
    ensures
      ReadLength(buf[..m], at, n, len).Err? || ReadLength(buf[..m], at, n, len) == ReadLength(buf, at, n, len)
    decreases n
  {
    if n > 0 && at < m {
      ShortenedLength(buf, m, at + 1, n - 1, Wrap32(len * 256) + buf[at]);
    }
  }

  lemma ContentFits(buf: Bytes, offset: nat)
    requires ParseAt(buf, offset).Ok?
    ensures ReadHeader(buf, offset).Ok?
    ensures |ParseAt(buf, offset).value.content| <= (if ReadHeader(buf, offset).value.start < |buf|
                                                       then |buf| - ReadHeader(buf, offset).value.start else 0)
  {
    hide ReadHeader;
  }

  lemma WalkKeepsData(der: Bytes)
    requires Walk(der).Ok?
    ensures Expect(der, 0, SEQUENCE).Ok?
    ensures
      var c := Expect(der, 0, SEQUENCE).value.content;
      && Expect(c, 0, SEQUENCE).Ok?
      && Expect(c, Expect(c, 0, SEQUENCE).value.total, OCTET_STRING).Ok?
      && Walk(der).value.data == Expect(c, Expect(c, 0, SEQUENCE).value.total, OCTET_STRING).value.content
  {
    hide Expect, WalkKdf, WalkCipher;
  }

  // From a shortened content the walk never gets all of the data back.
  lemma WalkShortened(e: Envelope)
    requires |Concat(SchemeAlg(e))| < INT32 <= |Concat(Outer(e))|
    ensures Walk(Emit(e)).Ok? ==> |Walk(Emit(e)).value.data| < |e.data|
  {
    hide TlvBytes, Concat, SchemeAlg, WalkScheme, Expect, Outer;
    var w := Walk(Emit(e));
    if w.Ok? {
      WalkKeepsData(Emit(e));
      var c := Concat(Outer(e));
      OuterShortened(c, SEQUENCE);
      var outer := Expect(Emit(e), 0, SEQUENCE).value;
      var m := |outer.content|;
      AlgorithmShortened(e, m);
      var algId := Expect(outer.content, 0, SEQUENCE).value;
      DataShortened(e, m);
    }
  }

  lemma AlgorithmShortened(e: Envelope, m: nat)
    requires |Concat(SchemeAlg(e))| < INT32 && m <= |Concat(Outer(e))|
    ensures
      var r := Expect(Concat(Outer(e))[..m], 0, SEQUENCE);
      r.Ok? ==> r.value.total == |DerSequence(SchemeAlg(e))|
  {
    var outer := Outer(e);
    PartParses(outer, 0, SEQUENCE, Concat(SchemeAlg(e)));
    Offsets(outer, 0);
    ConcatSplit(outer, 0);
    assert outer[..0] == [];
    HeaderOfTlv([], SEQUENCE, Concat(SchemeAlg(e)), Concat(outer[1..]));
    assert Concat(outer) == [] + outer[0] + Concat(outer[1..]);
    hide ReadHeader, ParseAt, TlvBytes, Concat;
    ShortenedParse(Concat(outer), m, 0);
  }

  lemma DataShortened(e: Envelope, m: nat)
    requires m < |Concat(Outer(e))|
    ensures
      var r := Expect(Concat(Outer(e))[..m], |DerSequence(SchemeAlg(e))|, OCTET_STRING);
      r.Ok? ==> |r.value.content| < |e.data|
  {
    var outer := Outer(e);
    var alg := DerSequence(SchemeAlg(e));
    var data := TlvBytes(OCTET_STRING, e.data);
    ConcatPair(alg, data);
    assert Concat(outer) == alg + data + [];
    HeaderOfTlv(alg, OCTET_STRING, e.data, []);
    ShortenedHeader(Concat(outer), m, |alg|);
    var short := Concat(outer)[..m];
    if ParseAt(short, |alg|).Ok? {
      ContentFits(short, |alg|);
      hide ReadHeader, ParseAt, Concat, EncodeLen, SchemeAlg;
      assert |Concat(outer)| == |alg| + 1 + |EncodeLen(|e.data|)| + |e.data|;
      assert |e.data| > 0;
    }
  }

  // ---------- the whole codec ----------

  // An envelope's PEM opens to a plaintext exactly when its fields are the fixed profile and
  // its data is the plaintext sealed under the key derived from the passphrase: an envelope
  // with a weaker derivation or another cipher never opens.
  lemma OpensExactly(p: Primitives, e: Envelope, passphrase: Text, plaintext: Bytes)
    requires p.Ideal() && Emittable(e) && |Concat(Outer(e))| < INT32
    ensures Unwrapped(p, Pem.Armored(Emit(e)), passphrase) == Ok(plaintext)
      <==> passphrase != [] && ProfileOk(e) && e.data == Resealed(p, e, passphrase, plaintext)
  {
    Pem.ArmorRoundTrip(Emit(e));
    WalkOfEmit(e);
    DecryptsExactly(p, e, passphrase, plaintext);
    hide Pem.Armored, Pem.FromPem, Emit, Walk, ProfileOk, Decrypt, Resealed;
  }

  function Resealed(p: Primitives, e: Envelope, passphrase: Text, plaintext: Bytes): Bytes {
    var (ct, tag) := p.seal(p.derive(passphrase, e.salt, e.iterations, e.keyLength), e.nonce, plaintext);
    ct + tag
  }

  lemma DecryptsExactly(p: Primitives, e: Envelope, passphrase: Text, plaintext: Bytes)
    requires p.Ideal()
    ensures Decrypt(p, e, passphrase) == Ok(plaintext)
      <==> ProfileOk(e) && e.data == Resealed(p, e, passphrase, plaintext)
  {
    hide ProfileOk;
    var kek := p.derive(passphrase, e.salt, e.iterations, e.keyLength);
    var (ct, tag) := p.seal(kek, e.nonce, plaintext);
    assert |ct| == |plaintext| && |tag| == GCM_TAG_LEN;
    if |e.data| >= GCM_TAG_LEN {
      var cut := |e.data| - GCM_TAG_LEN;
      assert e.data == e.data[..cut] + e.data[cut..];
      assert e.data == ct + tag ==> e.data[..cut] == ct && e.data[cut..] == tag;
    }
  }

  // The profile's octets around the ciphertext once its length takes five octets.
  const OVERHEAD := 124

  // A wrapped key opens to its plaintext exactly when the envelope stays below 2^31 octets:
  // the lengths are emitted as unsigned and read as signed 32-bit numbers.
  lemma WrapRoundTripExactly(p: Primitives, plaintext: Bytes, passphrase: Text, salt: Bytes, nonce: Bytes)
    requires p.Ideal() && passphrase != []
    requires |salt| == PBKDF2_SALT_LEN && |nonce| == GCM_NONCE_LEN
    ensures Wrapped(p, plaintext, passphrase, salt, nonce).Ok?
    ensures Unwrapped(p, Wrapped(p, plaintext, passphrase, salt, nonce).value, passphrase) == Ok(plaintext)
      <==> |plaintext| < INT32 - OVERHEAD
  {
    hide Walk, Concat, Emit, Outer, SchemeAlg, ProfileOk, Body, Pem.Armored, Pem.FromPem, Expect, Decrypt;
    var data := Sealed(p, plaintext, passphrase, salt, nonce);
    var e := FixedProfile(salt, nonce, data);
    SealedSize(p, plaintext, passphrase, salt, nonce);
    OuterSize(e);
    if |Concat(Outer(e))| < INT32 {
      ProfileHolds(salt, nonce, data);
      OpensExactly(p, e, passphrase, plaintext);
    } else {
      Pem.ArmorRoundTrip(Emit(e));
      WalkShortened(e);
      if Walk(Emit(e)).Ok? {
        DecryptKeepsSize(p, Walk(Emit(e)).value, passphrase);
      }
    }
  }

  lemma SealedSize(p: Primitives, plaintext: Bytes, passphrase: Text, salt: Bytes, nonce: Bytes)
    requires p.Ideal()
    ensures |Sealed(p, plaintext, passphrase, salt, nonce)| == |plaintext| + GCM_TAG_LEN
  {
  }

  lemma ProfileHolds(salt: Bytes, nonce: Bytes, data: Bytes)
    requires |nonce| == GCM_NONCE_LEN
    ensures ProfileOk(FixedProfile(salt, nonce, data))
  {
  }

  lemma DecryptKeepsSize(p: Primitives, e: Envelope, passphrase: Text)
    requires p.Ideal()
    ensures Decrypt(p, e, passphrase).Ok? ==> |Decrypt(p, e, passphrase).value| + GCM_TAG_LEN == |e.data|
  {
    if Decrypt(p, e, passphrase).Ok? {
      DecryptsExactly(p, e, passphrase, Decrypt(p, e, passphrase).value);
    }
  }

  lemma ShortTlv(tag: Byte, c: Bytes)
    ensures |c| < 0x80 ==> |TlvBytes(tag, c)| == 2 + |c|
    ensures |c| >= 0x100_0000 ==> |TlvBytes(tag, c)| == 6 + |c|
    ensures |TlvBytes(tag, c)| <= 6 + |c|
  {
  }

  lemma ConcatTwo(parts: seq<Bytes>)
    requires |parts| == 2
    ensures |Concat(parts)| == |parts[0]| + |parts[1]|
  {
    Offsets(parts, 2);
    assert parts[..2] == parts;
  }

  lemma ConcatFour(parts: seq<Bytes>)
    requires |parts| == 4
    ensures |Concat(parts)| == |parts[0]| + |parts[1]| + |parts[2]| + |parts[3]|
  {
    Offsets(parts, 4);
    assert parts[..4] == parts;
  }

  lemma SubidentifierSize(v: nat)
    ensures v < 128 ==> |Subidentifier(v)| == 1
    ensures 128 <= v < 16384 ==> |Subidentifier(v)| == 2
    ensures 16384 <= v < 2097152 ==> |Subidentifier(v)| == 3
  {
    if 128 <= v < 2097152 {
      assert Continued(v / 128) == Continued(v / 128 / 128) + [v / 128 % 128 + 128];
      if v >= 16384 {
        assert Continued(v / 128 / 128) == Continued(v / 128 / 128 / 128) + [v / 128 / 128 % 128 + 128];
      }
    }
  }

  function SizeOf(v: nat): nat {
    if v < 128 then 1 else if v < 16384 then 2 else 3
  }

  function SizeOfAll(parts: seq<nat>): nat {
    if parts == [] then 0 else SizeOf(parts[0]) + SizeOfAll(parts[1..])
  }

  lemma {:induction false} SubidentifiersSize(parts: seq<nat>)
    requires forall i :: 0 <= i < |parts| ==> parts[i] < 2097152
    ensures |Subidentifiers(parts)| == SizeOfAll(parts)
    decreases |parts|
  {
    if parts != [] {
      assert parts[0] % UINT32 == parts[0];
      SubidentifierSize(parts[0]);
      SubidentifiersSize(parts[1..]);
    }
  }

  lemma {:induction false} SmallSizes(parts: seq<nat>)
    requires forall i :: 0 <= i < |parts| ==> parts[i] < 128
    ensures SizeOfAll(parts) == |parts|
    decreases |parts|
  {
    if parts != [] {
      SmallSizes(parts[1..]);
    }
  }

  // 840 takes two octets, 113549 three and the rest one each.
  lemma BodySize(parts: seq<int>)
    requires |parts| >= 4 && (forall i :: 0 <= i < |parts| ==> 0 <= parts[i] < 2097152)
    requires forall i :: 4 <= i < |parts| ==> parts[i] < 128
    ensures |Body(parts)| == 1 + SizeOf(parts[2]) + SizeOf(parts[3]) + (|parts| - 4)
  {
    hide Subidentifiers;
    var rest: seq<nat> := parts[2..];
    assert OidBody(parts).Ok?;
    SubidentifiersSize(rest);
    assert rest[1..][1..] == parts[4..];
    SmallSizes(parts[4..]);
    assert SizeOfAll(rest) == SizeOf(parts[2]) + SizeOfAll(rest[1..]);
  }

  lemma BodySizes()
    ensures |Body(ID_PBES2)| == 9 && |Body(ID_PBKDF2)| == 9
    ensures |Body(ID_HMAC_SHA256)| == 8
    ensures |Body(ID_AES256_GCM)| == 9
  {
    hide Body;
    BodySize(ID_PBES2);
    BodySize(ID_PBKDF2);
    BodySize(ID_HMAC_SHA256);
    AesBodySize();
  }

  lemma AesBodySize()
    ensures |Body(ID_AES256_GCM)| == 9
  {
    hide Body;
    assert forall i :: 4 <= i < |ID_AES256_GCM| ==> ID_AES256_GCM[i] < 128;
    BodySize(ID_AES256_GCM);
  }

  lemma IntegerSizes()
    ensures |IntegerBody(PBKDF2_ITERATIONS)| == 3 && |IntegerBody(KEY_LEN)| == 1 && |IntegerBody(GCM_TAG_LEN)| == 1
  {
    BigEndianUpTo4([0x09, 0x27, 0xc0]);
    BigEndianUpTo4([0x20]);
    BigEndianUpTo4([0x10]);
    IntegerIsMinimal(PBKDF2_ITERATIONS, [0x09, 0x27, 0xc0]);
    IntegerIsMinimal(KEY_LEN, [0x20]);
    IntegerIsMinimal(GCM_TAG_LEN, [0x10]);
  }

  lemma KdfSize(e: Envelope)
    requires e == FixedProfile(e.salt, e.nonce, e.data) && |e.salt| == PBKDF2_SALT_LEN
    ensures |DerSequence(KdfAlg(e))| == 55
  {
    BodySizes();
    IntegerSizes();
    hide TlvBytes, Concat, IntegerBody, Body;
    ShortTlv(OBJECT_IDENTIFIER, e.prf);
    ShortTlv(NULL, []);
    ConcatTwo(PrfAlg(e));
    ShortTlv(SEQUENCE, Concat(PrfAlg(e)));
    ShortTlv(OCTET_STRING, e.salt);
    ShortTlv(INTEGER, IntegerBody(e.iterations));
    ShortTlv(INTEGER, IntegerBody(e.keyLength));
    ConcatFour(KdfParams(e));
    ShortTlv(SEQUENCE, Concat(KdfParams(e)));
    ShortTlv(OBJECT_IDENTIFIER, e.kdf);
    ConcatTwo(KdfAlg(e));
    ShortTlv(SEQUENCE, Concat(KdfAlg(e)));
  }

  lemma CipherSize(e: Envelope)
    requires e == FixedProfile(e.salt, e.nonce, e.data) && |e.nonce| == GCM_NONCE_LEN
    ensures |DerSequence(CipherAlg(e))| == 32
  {
    BodySizes();
    IntegerSizes();
    hide TlvBytes, Concat, IntegerBody, Body;
    ShortTlv(OCTET_STRING, e.nonce);
    ShortTlv(INTEGER, IntegerBody(e.tagLength));
    ConcatTwo(CipherParams(e));
    ShortTlv(SEQUENCE, Concat(CipherParams(e)));
    ShortTlv(OBJECT_IDENTIFIER, e.cipher);
    ConcatTwo(CipherAlg(e));
    ShortTlv(SEQUENCE, Concat(CipherAlg(e)));
  }

  lemma OuterSize(e: Envelope)
    requires e == FixedProfile(e.salt, e.nonce, e.data)
    requires |e.salt| == PBKDF2_SALT_LEN && |e.nonce| == GCM_NONCE_LEN
    ensures |Concat(SchemeAlg(e))| == 100
    ensures |Concat(Outer(e))| < INT32 <==> |e.data| < INT32 - OVERHEAD + GCM_TAG_LEN
  {
    BodySizes();
    KdfSize(e);
    CipherSize(e);
    hide TlvBytes, Concat, IntegerBody, Body, KdfAlg, CipherAlg, DerSequence;
    ConcatTwo(SchemeParams(e));
    SequenceSize(SchemeParams(e));
    ShortTlv(OBJECT_IDENTIFIER, e.scheme);
    ConcatTwo(SchemeAlg(e));
    SequenceSize(SchemeAlg(e));
    ShortTlv(OCTET_STRING, e.data);
    ConcatTwo(Outer(e));
  }

  lemma SequenceSize(parts: seq<Bytes>)
    ensures |Concat(parts)| < 0x80 ==> |DerSequence(parts)| == 2 + |Concat(parts)|
  {
    ShortTlv(SEQUENCE, Concat(parts));
  }
}
