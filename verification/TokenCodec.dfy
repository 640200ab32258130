// The two token envelopes and their dispatch: LIC1 (typescript/src/lic1.ts), LIC2
// (typescript/src/lic2.ts) and the codec registry (typescript/src/token-codec.ts).
module TokenCodec {
  import opened Base
  import opened Crypto
  import opened JsonValue
  import Base64
  import CanonicalBytes
  import CanonicalJson
  import Pae
  import StrictJson
  import Utf8

  datatype Format = Lic1 | Lic2

  datatype TokenError =
    | UnsupportedTokenFormat
    | TokenMalformed
    | UnsupportedAlgorithm
    | DuplicateKey(key: Text)
    | NotCanonical(e: CanonicalJson.CanonError)
    | UnknownKid
    | AlgorithmMismatch
    | TokenSignatureInvalid

  datatype Envelope = Envelope(
    alg: Alg, kid: Text, payload: map<Text, Json>, signingInput: Bytes, signature: Bytes)

  const LIC1_PREFIX := Ascii("LIC1.")
  const LIC2_PREFIX := Ascii("v4.public.")
  const DOT: Unit := 0x2e
  const DOT_TEXT: Text := [DOT]
  const SIG_LEN := 64

  const V := Ascii("v")
  const TYP := Ascii("typ")
  const ALG := Ascii("alg")
  const KID := Ascii("kid")
  const LIC := Ascii("lic")

  // ---------- shared pieces ----------

  // String.prototype.split on a dot.
  function Split(t: Text): (parts: seq<Text>)
    ensures parts != []
  {
    if t == [] then [[]]
    else
      var rest := Split(t[1..]);
      if t[0] == DOT then [[]] + rest else [[t[0]] + rest[0]] + rest[1..]
  }

  function FromBase64(t: Text): Result<Bytes, TokenError> {
    match Base64.Decode(t)
    case Ok(b) => Ok(b)
    case Err(_) => Err(TokenMalformed)
  }

  ghost function ToCanonical(v: Json): Result<Bytes, TokenError> {
    match CanonicalBytes.Canonicalize(v)
    case Ok(b) => Ok(b)
    case Err(e) => Err(NotCanonical(e))
  }

  // Bytes to a JSON object, duplicate keys reported.
  ghost function ParseObject(b: Bytes): Result<map<Text, Json>, TokenError> {
    match Utf8.Decode(b)
    case None => Err(TokenMalformed)
    case Some(t) =>
      match StrictJson.TextOf(t)
      case Ok(v) => (if v.Obj? then Ok(v.members) else Err(TokenMalformed))
      case Err(e) => Err(if e.DuplicateKey? then DuplicateKey(e.key) else TokenMalformed)
  }

  // ---------- LIC1 ----------

  function HeaderJson(alg: Alg, kid: Text): Json {
    Obj(map[V := Num(Finite(1.0)), TYP := Str(LIC), ALG := Str(AlgName(alg)), KID := Str(kid)])
  }

  // The strict four-field header.
  function HeaderOf(m: map<Text, Json>): Result<(Alg, Text), TokenError> {
    if m.Keys != {V, TYP, ALG, KID} then Err(TokenMalformed)
    else if m[V] != Num(Finite(1.0)) || m[TYP] != Str(LIC) then Err(TokenMalformed)
    else if !m[ALG].Str? || ParseAlg(m[ALG].s).None? then Err(TokenError.UnsupportedAlgorithm)
    else if !m[KID].Str? || m[KID].s == [] then Err(TokenMalformed)
    else Ok((ParseAlg(m[ALG].s).value, m[KID].s))
  }

  ghost function ParseHeader(b: Bytes): Result<(Alg, Text), TokenError> {
    var m :- ParseObject(b);
    HeaderOf(m)
  }

  function Lic1Input(header: Bytes, payload: Bytes): Bytes {
    Utf8.Encode(Base64.Encode(header) + DOT_TEXT + Base64.Encode(payload))
  }

  ghost function EncodeLic1(b: Backend, public: Text, alg: Alg, kid: Text, payload: Json): Result<Text, TokenError> {
    var header :- ToCanonical(HeaderJson(alg, kid));
    var body :- ToCanonical(payload);
    var signature := b.sign(alg, public, Lic1Input(header, body));
    Ok(LIC1_PREFIX + Base64.Encode(header) + DOT_TEXT + Base64.Encode(body) + DOT_TEXT + Base64.Encode(signature))
  }

  method WriteLic1(b: Backend, public: Text, alg: Alg, kid: Text, payload: Json) returns (r: Result<Text, TokenError>)
    ensures r == EncodeLic1(b, public, alg, kid, payload)
  {
    hide ToCanonical;
    var header :- CanonicalBytesOf(HeaderJson(alg, kid));
    var body :- CanonicalBytesOf(payload);
    var signature := b.sign(alg, public, Lic1Input(header, body));
    return Ok(LIC1_PREFIX + Base64.Encode(header) + DOT_TEXT + Base64.Encode(body) + DOT_TEXT + Base64.Encode(signature));
  }

  ghost function DecodeLic1(token: Text): Result<Envelope, TokenError> {
    var parts := Split(token);
    if |parts| != 4 then Err(TokenMalformed)
    else
      var header :- FromBase64(parts[1]);
      var body :- FromBase64(parts[2]);
      var signature :- FromBase64(parts[3]);
      var (alg, kid) :- ParseHeader(header);
      var payload :- ParseObject(body);
      Ok(Envelope(alg, kid, payload, Utf8.Encode(parts[1] + DOT_TEXT + parts[2]), signature))
  }

  // ---------- LIC2 ----------

  function Lic2Input(message: Bytes, footer: Bytes): Bytes {
    Pae.Encoding([Utf8.Encode(LIC2_PREFIX), message, footer, []])
  }

  method SigningInputFor(message: Bytes, footer: Bytes) returns (r: Bytes)
    ensures r == Lic2Input(message, footer)
  {
    r := Pae.Encode([Utf8.Encode(LIC2_PREFIX), message, footer, []]);
  }

  function FooterJson(kid: Text): Json {
    Obj(map[KID := Str(kid)])
  }

  function FooterOf(m: map<Text, Json>): Result<Text, TokenError> {
    if KID !in m || !m[KID].Str? || m[KID].s == [] then Err(TokenMalformed) else Ok(m[KID].s)
  }

  ghost function ParseFooter(b: Bytes): Result<Text, TokenError> {
    var m :- ParseObject(b);
    FooterOf(m)
  }

  ghost function EncodeLic2(b: Backend, public: Text, alg: Alg, kid: Text, payload: Json): Result<Text, TokenError> {
    if alg != Ed25519 then Err(TokenError.UnsupportedAlgorithm)
    else
      var message :- ToCanonical(payload);
      var footer :- ToCanonical(FooterJson(kid));
      var signature := b.sign(alg, public, Lic2Input(message, footer));
      Ok(LIC2_PREFIX + Base64.Encode(message + signature) + DOT_TEXT + Base64.Encode(footer))
  }

  method CanonicalBytesOf(v: Json) returns (r: Result<Bytes, TokenError>)
    ensures r == ToCanonical(v)
  {
    var text := CanonicalJson.CanonicalizeToString(v);
    if text.Err? {
      return Err(NotCanonical(text.error));
    }
    return Ok(Utf8.Encode(text.value));
  }

  // The LIC2 codec's encode: message and signature are copied into one buffer.
  method WriteLic2(b: Backend, public: Text, alg: Alg, kid: Text, payload: Json) returns (r: Result<Text, TokenError>)
    ensures r == EncodeLic2(b, public, alg, kid, payload)
  {
    hide ToCanonical, Lic2Input;
    if alg != Ed25519 {
      return Err(TokenError.UnsupportedAlgorithm);
    }
    var message :- CanonicalBytesOf(payload);
    var footer :- CanonicalBytesOf(FooterJson(kid));
    var input := SigningInputFor(message, footer);
    var signature := b.sign(alg, public, input);
    var body := new Byte[|message| + |signature|];
    Set(body, message, 0);
    Set(body, signature, |message|);
    assert body[..] == message + signature;
    return Ok(LIC2_PREFIX + Base64.Encode(body[..]) + DOT_TEXT + Base64.Encode(footer));
  }

  ghost function DecodeLic2(token: Text): Result<Envelope, TokenError>
    requires LIC2_PREFIX <= token
  {
    var rest := token[|LIC2_PREFIX|..];
    var segments := Split(rest);
    if rest == [] || |segments| > 2 then Err(TokenMalformed)
    else
      var body :- FromBase64(segments[0]);
      if |body| <= SIG_LEN then Err(TokenMalformed)
      else
        var message := body[..|body| - SIG_LEN];
        var footer :- if |segments| == 1 then Ok([]) else FromBase64(segments[1]);
        if footer == [] then Err(TokenMalformed)
        else
          var kid :- ParseFooter(footer);
          var payload :- ParseObject(message);
          Ok(Envelope(Ed25519, kid, payload, Lic2Input(message, footer), body[|body| - SIG_LEN..]))
  }

  // ---------- dispatch ----------

  datatype Codec = Codec(prefix: Text, format: Format)

  const LIC1_CODEC := Codec(LIC1_PREFIX, Lic1)
  const LIC2_CODEC := Codec(LIC2_PREFIX, Lic2)

  function Prefix(f: Format): Text {
    match f
    case Lic1 => LIC1_PREFIX
    case Lic2 => LIC2_PREFIX
  }

  predicate Supports(f: Format, alg: Alg) {
    f == Lic1 || alg == Ed25519
  }

  // The first registered codec whose prefix the token carries.
  function CodecFor(codecs: seq<Codec>, token: Text): Option<Codec> {
    if codecs == [] then None
    else if codecs[0].prefix <= token then Some(codecs[0])
    else CodecFor(codecs[1..], token)
  }

  predicate HasPrefix(codecs: seq<Codec>, prefix: Text) {
    exists i :: 0 <= i < |codecs| && codecs[i].prefix == prefix
  }

  // The registry: codecs in registration order, prefixes distinct.
  class CodecRegistry {
    var codecs: seq<Codec>

    ghost predicate Valid()
      reads this
    {
      forall i, j :: 0 <= i < j < |codecs| ==> codecs[i].prefix != codecs[j].prefix
    }

    constructor ()
      ensures Valid() && codecs == []
    {
      codecs := [];
    }

    // A second registration of a prefix is rejected and changes nothing.
    method RegisterCodec(c: Codec) returns (r: Result<(), TokenError>)
      requires Valid()
      modifies this
      ensures Valid()
      ensures r == if HasPrefix(old(codecs), c.prefix) then Err(UnsupportedTokenFormat) else Ok(())
      ensures codecs == if HasPrefix(old(codecs), c.prefix) then old(codecs) else old(codecs) + [c]
    {
      for i := 0 to |codecs|
        invariant forall k :: 0 <= k < i ==> codecs[k].prefix != c.prefix
        invariant codecs == old(codecs)
      {
        if codecs[i].prefix == c.prefix {
          return Err(UnsupportedTokenFormat);
        }
      }
      codecs := codecs + [c];
      return Ok(());
    }

    method Select(token: Text) returns (r: Result<Codec, TokenError>)
      ensures r == match CodecFor(codecs, token)
        case Some(c) => Ok(c)
        case None => Err(UnsupportedTokenFormat)
    {
      for i := 0 to |codecs|
        invariant CodecFor(codecs, token) == CodecFor(codecs[i..], token)
      {
        if codecs[i].prefix <= token {
          return Ok(codecs[i]);
        }
        assert codecs[i..][1..] == codecs[i + 1..];
      }
      return Err(UnsupportedTokenFormat);
    }

    method CodecForFormat(f: Format) returns (r: Result<Codec, TokenError>)
      requires Valid()
      ensures r.Ok? <==> HasPrefix(codecs, Prefix(f))
      ensures r.Ok? ==> r.value in codecs && r.value.prefix == Prefix(f)
      ensures r.Err? ==> r.error == UnsupportedTokenFormat
    {
      for i := 0 to |codecs|
        invariant forall k :: 0 <= k < i ==> codecs[k].prefix != Prefix(f)
      {
        if codecs[i].prefix == Prefix(f) {
          return Ok(codecs[i]);
        }
      }
      return Err(UnsupportedTokenFormat);
    }
  }

  // What a token decodes to: the codec that owns its prefix decides.
  ghost function DecodeEnvelope(codecs: seq<Codec>, token: Text): Result<Envelope, TokenError> {
    match CodecFor(codecs, token)
    case None => Err(UnsupportedTokenFormat)
    case Some(c) =>
      match c.format
      case Lic1 => DecodeLic1(token)
      case Lic2 => if LIC2_PREFIX <= token then DecodeLic2(token) else Err(UnsupportedTokenFormat)
  }

  // ---------- decoding, step by step ----------

  method ParseJsonObject(b: Bytes) returns (r: Result<map<Text, Json>, TokenError>)
    ensures r == ParseObject(b)
  {
    var text := Utf8.Decode(b);
    if text.None? {
      return Err(TokenMalformed);
    }
    var v := StrictJson.StrictParse(text.value);
    if v.Err? {
      return Err(if v.error.DuplicateKey? then DuplicateKey(v.error.key) else TokenMalformed);
    }
    if !v.value.Obj? {
      return Err(TokenMalformed);
    }
    return Ok(v.value.members);
  }

  method ReadLic1(token: Text) returns (r: Result<Envelope, TokenError>)
    ensures r == DecodeLic1(token)
  {
    hide ParseObject, FromBase64, Split, HeaderOf;
    var parts := Split(token);
    if |parts| != 4 {
      return Err(TokenMalformed);
    }
    var header :- FromBase64(parts[1]);
    var body :- FromBase64(parts[2]);
    var signature :- FromBase64(parts[3]);
    var fields :- ParseJsonObject(header);
    var named :- HeaderOf(fields);
    var payload :- ParseJsonObject(body);
    return Ok(Envelope(named.0, named.1, payload, Utf8.Encode(parts[1] + DOT_TEXT + parts[2]), signature));
  }

  method ReadLic2(token: Text) returns (r: Result<Envelope, TokenError>)
    requires LIC2_PREFIX <= token
    ensures r == DecodeLic2(token)
  {
    hide ParseObject, FromBase64, Split, FooterOf, Lic2Input;
    var rest := token[|LIC2_PREFIX|..];
    if rest == [] {
      return Err(TokenMalformed);
    }
    var segments := Split(rest);
    if |segments| > 2 {
      return Err(TokenMalformed);
    }
    var body :- FromBase64(segments[0]);
    if |body| <= SIG_LEN {
      return Err(TokenMalformed);
    }
    var message, signature := body[..|body| - SIG_LEN], body[|body| - SIG_LEN..];
    var footer: Bytes := [];
    if |segments| == 2 {
      footer :- FromBase64(segments[1]);
    }
    if footer == [] {
      return Err(TokenMalformed);
    }
    var fields :- ParseJsonObject(footer);
    var kid :- FooterOf(fields);
    var payload :- ParseJsonObject(message);
    var input := SigningInputFor(message, footer);
    return Ok(Envelope(Ed25519, kid, payload, input, signature));
  }

  method Decode(codecs: seq<Codec>, token: Text) returns (r: Result<Envelope, TokenError>)
    ensures r == DecodeEnvelope(codecs, token)
  {
    hide DecodeLic1, DecodeLic2;
    var codec := CodecFor(codecs, token);
    if codec.None? || (codec.value.format == Lic2 && !(LIC2_PREFIX <= token)) {
      return Err(UnsupportedTokenFormat);
    }
    if codec.value.format == Lic1 {
      r := ReadLic1(token);
    } else {
      r := ReadLic2(token);
    }
  }

  method Verify(t: Trust, token: Text) returns (r: Result<Envelope, TokenError>)
    ensures r == VerifyEnvelope(t, token)
  {
    hide DecodeEnvelope;
    var e :- Decode(t.codecs, token);
    if e.kid !in t.bindings {
      return Err(TokenError.UnknownKid);
    }
    if t.bindings[e.kid] != e.alg {
      return Err(TokenError.AlgorithmMismatch);
    }
    if e.alg !in t.registered {
      return Err(TokenError.UnsupportedAlgorithm);
    }
    if e.kid !in t.keys {
      return Err(TokenError.UnknownKid);
    }
    if t.keys[e.kid].alg != e.alg {
      return Err(TokenError.AlgorithmMismatch);
    }
    if !t.backend.Verify(e.alg, t.keys[e.kid].public, e.signingInput, e.signature) {
      return Err(TokenSignatureInvalid);
    }
    return Ok(e);
  }

  ghost function EncodeToken(f: Format, b: Backend, public: Text, alg: Alg, kid: Text, payload: Json)
    : Result<Text, TokenError>
  {
    match f
    case Lic1 => EncodeLic1(b, public, alg, kid, payload)
    case Lic2 => EncodeLic2(b, public, alg, kid, payload)
  }

  // ---------- verification ----------

  datatype KeyRecord = KeyRecord(alg: Alg, public: Text)

  // The verifier's tables.
  datatype Trust = Trust(
    codecs: seq<Codec>, registered: set<Alg>, bindings: map<Text, Alg>, keys: map<Text, KeyRecord>, backend: Backend)

  // VerifyEnvelope: the binding is checked before the backend, and the backend before the key.
  ghost function VerifyEnvelope(t: Trust, token: Text): Result<Envelope, TokenError> {
    var e :- DecodeEnvelope(t.codecs, token);
    if Expected(t.bindings, e.kid, e.alg).Err? then
      Err(if e.kid in t.bindings then TokenError.AlgorithmMismatch else TokenError.UnknownKid)
    else if e.alg !in t.registered then Err(TokenError.UnsupportedAlgorithm)
    else if e.kid !in t.keys then Err(TokenError.UnknownKid)
    else if t.keys[e.kid].alg != e.alg then Err(TokenError.AlgorithmMismatch)
    else if !t.backend.Verify(e.alg, t.keys[e.kid].public, e.signingInput, e.signature) then Err(TokenSignatureInvalid)
    else Ok(e)
  }
}
