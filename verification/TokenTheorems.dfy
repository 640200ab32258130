// Tokens of either format decode to what was encoded; their signing inputs determine what is
// signed, and no LIC1 input is a LIC2 input.
module TokenTheorems {
  import opened Base
  import opened Crypto
  import opened JsonValue
  import opened TokenCodec
  import Base64
  import CanonicalBytes
  import CanonicalJson
  import Pae
  import Utf8

  // ---------- splitting ----------

  predicate NoDot(t: Text) {
    forall i :: 0 <= i < |t| ==> t[i] != DOT
  }

  lemma {:induction false} SplitHead(a: Text, rest: Text)
    requires NoDot(a)
    ensures Split(a + DOT_TEXT + rest) == [a] + Split(rest)
    decreases |a|
  {
    var t := a + DOT_TEXT + rest;
    if a == [] {
      assert t[1..] == rest;
    } else {
      assert t[1..] == a[1..] + DOT_TEXT + rest;
      SplitHead(a[1..], rest);
      assert [a[0]] + a[1..] == a;
      assert ([a[1..]] + Split(rest))[1..] == Split(rest);
    }
  }

  lemma {:induction false} SplitOne(a: Text)
    requires NoDot(a)
    ensures Split(a) == [a]
    decreases |a|
  {
    if a != [] {
      SplitOne(a[1..]);
      assert [a[0]] + a[1..] == a;
    }
  }

  lemma Base64NoDot(b: Bytes)
    ensures NoDot(Base64.Encode(b))
    ensures FromBase64(Base64.Encode(b)) == Ok(b)
  {
    Base64.EncodeMeans(b);
    Base64.UrlRoundTrip(b);
  }

  // ---------- objects the formats add ----------

  lemma Names()
    ensures |V| == 1 && |TYP| == 3 && |ALG| == 3 && |KID| == 3 && |PROTO| == 9
    ensures V != TYP && V != ALG && V != KID && TYP != ALG && TYP != KID && ALG != KID
    ensures PROTO != V && PROTO != TYP && PROTO != ALG && PROTO != KID
  {
    assert TYP[0] == 0x74 && ALG[0] == 0x61 && KID[0] == 0x6b;
  }

  lemma HeaderReads(alg: Alg, kid: Text)
    requires ToCanonical(HeaderJson(alg, kid)).Ok?
    ensures ParseHeader(ToCanonical(HeaderJson(alg, kid)).value) == if kid == [] then Err(TokenMalformed) else Ok((alg, kid))
  {
    var v := HeaderJson(alg, kid);
    HeaderMembers(alg, kid);
    hide CanonicalBytes.Canonicalize, CanonicalBytes.ParseBytes, HeaderJson, ParseObject, AlgName, ParseAlg;
    Flat(v.members);
    CanonicalBytes.BytesRoundTrip(v);
    ParsesTo(ToCanonical(v).value, v);
    AlgNamesParse(alg);
  }

  lemma HeaderMembers(alg: Alg, kid: Text)
    ensures HeaderJson(alg, kid).Obj?
    ensures
      var m := HeaderJson(alg, kid).members;
      && m.Keys == {V, TYP, ALG, KID} && PROTO !in m
      && m[V] == Num(Finite(1.0)) && m[TYP] == Str(LIC) && m[ALG] == Str(AlgName(alg)) && m[KID] == Str(kid)
  {
    Names();
    hide AlgName;
  }

  // An object of plain members has nothing JSON parsing would change.
  lemma Flat(m: map<Text, Json>)
    requires PROTO !in m && forall k :: k in m ==> m[k].Str? || m[k].Num?
    ensures NoProto(Obj(m)) && NoBigInt(Obj(m))
  {
  }

  lemma ParsesTo(b: Bytes, v: Json)
    requires CanonicalBytes.ParseBytes(b) == Some(v) && v.Obj?
    ensures ParseObject(b) == Ok(v.members)
  {
  }

  lemma FooterReads(kid: Text)
    requires ToCanonical(FooterJson(kid)).Ok?
    ensures ParseFooter(ToCanonical(FooterJson(kid)).value) == if kid == [] then Err(TokenMalformed) else Ok(kid)
  {
    var v := FooterJson(kid);
    Names();
    Flat(v.members);
    CanonicalBytes.BytesRoundTrip(v);
    hide CanonicalBytes.Canonicalize, CanonicalBytes.ParseBytes;
    ParsesTo(ToCanonical(v).value, v);
  }

  // What a payload is after JSON parsing: without __proto__ keys, bigints as numbers.
  ghost function Kept(payload: Json): map<Text, Json>
    requires payload.Obj?
  {
    WithoutProto(Numeric(payload)).members
  }

  lemma PayloadReads(payload: Json)
    requires ToCanonical(payload).Ok?
    ensures payload.Obj? && ToCanonical(payload).value != []
    ensures ParseObject(ToCanonical(payload).value) == Ok(Kept(payload))
  {
    CanonicalBytes.CanonicalDecodes(payload);
    CanonicalBytes.BytesRoundTrip(payload);
    ParsesTo(ToCanonical(payload).value, WithoutProto(Numeric(payload)));
    NotEmpty(payload);
  }

  lemma NotEmpty(payload: Json)
    requires ToCanonical(payload).Ok?
    ensures ToCanonical(payload).value != []
  {
    CanonicalBytes.CanonicalDecodes(payload);
    assert CanonicalJson.Canonical(payload).value != [];
    assert Utf8.Decode([]) == Some([]);
  }

  // ---------- round trips ----------

  // A LIC1 token decodes to what it was encoded from, exactly when its kid is not empty.
  lemma Lic1RoundTrip(b: Backend, public: Text, alg: Alg, kid: Text, payload: Json)
    requires EncodeLic1(b, public, alg, kid, payload).Ok?
    ensures ToCanonical(HeaderJson(alg, kid)).Ok? && ToCanonical(payload).Ok? && payload.Obj?
    ensures
      var input := Lic1Input(ToCanonical(HeaderJson(alg, kid)).value, ToCanonical(payload).value);
      DecodeLic1(EncodeLic1(b, public, alg, kid, payload).value) ==
        if kid == [] then Err(TokenMalformed)
        else Ok(Envelope(alg, kid, Kept(payload), input, b.sign(alg, public, input)))
  {
    hide ToCanonical, ParseHeader, ParseObject, FromBase64, Kept, Split;
    var h := ToCanonical(HeaderJson(alg, kid)).value;
    var p := ToCanonical(payload).value;
    var s := b.sign(alg, public, Lic1Input(h, p));
    var token := EncodeLic1(b, public, alg, kid, payload).value;
    Base64NoDot(h);
    Base64NoDot(p);
    Base64NoDot(s);
    hide Base64.Encode;
    var eh, ep, es := Base64.Encode(h), Base64.Encode(p), Base64.Encode(s);
    FourSegments(eh, ep, es, token);
    HeaderReads(alg, kid);
    PayloadReads(payload);
  }

  lemma FourSegments(a: Text, b: Text, c: Text, token: Text)
    requires NoDot(a) && NoDot(b) && NoDot(c)
    requires token == LIC1_PREFIX + a + DOT_TEXT + b + DOT_TEXT + c
    ensures |Split(token)| == 4 && Split(token)[1] == a && Split(token)[2] == b && Split(token)[3] == c
  {
    var lic := LIC1_PREFIX[..4];
    assert LIC1_PREFIX == lic + DOT_TEXT && NoDot(lic);
    assert token == lic + DOT_TEXT + (a + DOT_TEXT + (b + DOT_TEXT + c));
    SplitOne(c);
    SplitHead(b, c);
    SplitHead(a, b + DOT_TEXT + c);
    SplitHead(lic, a + DOT_TEXT + (b + DOT_TEXT + c));
    hide Split;
    assert Split(token) == [lic, a, b, c];
  }

  // Ed25519 signatures have 64 octets.
  ghost predicate Ed25519Sized(b: Backend) {
    forall public, m :: |b.sign(Ed25519, public, m)| == SIG_LEN
  }

  // The same for LIC2, under the signature size it relies on.
  lemma Lic2RoundTrip(b: Backend, public: Text, alg: Alg, kid: Text, payload: Json)
    requires Ed25519Sized(b)
    requires EncodeLic2(b, public, alg, kid, payload).Ok?
    ensures alg == Ed25519 && LIC2_PREFIX <= EncodeLic2(b, public, alg, kid, payload).value
    ensures ToCanonical(FooterJson(kid)).Ok? && ToCanonical(payload).Ok? && payload.Obj?
    ensures
      var input := Lic2Input(ToCanonical(payload).value, ToCanonical(FooterJson(kid)).value);
      DecodeLic2(EncodeLic2(b, public, alg, kid, payload).value) ==
        if kid == [] then Err(TokenMalformed)
        else Ok(Envelope(Ed25519, kid, Kept(payload), input, b.sign(Ed25519, public, input)))
  {
    hide ToCanonical, ParseFooter, ParseObject, FromBase64, Kept, Split, Lic2Input, Base64.Encode;
    var m := ToCanonical(payload).value;
    var f := ToCanonical(FooterJson(kid)).value;
    var s := b.sign(alg, public, Lic2Input(m, f));
    var token := EncodeLic2(b, public, alg, kid, payload).value;
    Base64NoDot(m + s);
    Base64NoDot(f);
    var eb, ef := Base64.Encode(m + s), Base64.Encode(f);
    var rest := eb + DOT_TEXT + ef;
    assert token == LIC2_PREFIX + rest;
    assert token[|LIC2_PREFIX|..] == rest;
    SplitOne(ef);
    SplitHead(eb, ef);
    PayloadReads(payload);
    NotEmpty(FooterJson(kid));
    FooterReads(kid);
    assert (m + s)[..|m + s| - SIG_LEN] == m && (m + s)[|m + s| - SIG_LEN..] == s;
  }

  // ---------- dispatch ----------

  // No registered prefix begins another.
  ghost predicate PrefixFree(codecs: seq<Codec>) {
    forall i, j :: 0 <= i < |codecs| && 0 <= j < |codecs| && codecs[i].prefix <= codecs[j].prefix ==> i == j
  }

  // Then the order of registration does not matter: the codec found is the one whose prefix
  // the token carries.
  lemma {:induction false} DispatchByPrefix(codecs: seq<Codec>, token: Text, c: Codec)
    requires PrefixFree(codecs) && c in codecs
    ensures CodecFor(codecs, token) == Some(c) <==> c.prefix <= token
    decreases |codecs|
  {
    var i :| 0 <= i < |codecs| && codecs[i] == c;
    if codecs[0].prefix <= token {
      if c.prefix <= token {
        PrefixesNest(c.prefix, codecs[0].prefix, token);
      }
    } else {
      if c == codecs[0] {
        CodecForFits(codecs[1..], token);
      } else {
        assert codecs[1..][i - 1] == c;
        TailPrefixFree(codecs);
        DispatchByPrefix(codecs[1..], token, c);
      }
    }
  }

  lemma TailPrefixFree(codecs: seq<Codec>)
    requires codecs != [] && PrefixFree(codecs)
    ensures PrefixFree(codecs[1..])
  {
    forall i, j | 0 <= i < |codecs[1..]| && 0 <= j < |codecs[1..]| && codecs[1..][i].prefix <= codecs[1..][j].prefix
      ensures i == j
    {
      assert codecs[i + 1].prefix <= codecs[j + 1].prefix;
    }
  }

  lemma PrefixesNest(a: Text, b: Text, t: Text)
    requires a <= t && b <= t
    ensures a <= b || b <= a
  {
    assert t[..|a|] == a && t[..|b|] == b;
  }

  lemma {:induction false} CodecForFits(codecs: seq<Codec>, token: Text)
    ensures CodecFor(codecs, token).Some? ==>
      CodecFor(codecs, token).value in codecs && CodecFor(codecs, token).value.prefix <= token
    decreases |codecs|
  {
    if codecs != [] && !(codecs[0].prefix <= token) {
      CodecForFits(codecs[1..], token);
    }
  }

  // The registry both ports set up, in whichever order their modules load.
  ghost predicate Standard(codecs: seq<Codec>) {
    codecs == [LIC1_CODEC, LIC2_CODEC] || codecs == [LIC2_CODEC, LIC1_CODEC]
  }

  lemma StandardDispatch(codecs: seq<Codec>, f: Format, token: Text)
    requires Standard(codecs) && Prefix(f) <= token
    ensures CodecFor(codecs, token) == Some(Codec(Prefix(f), f))
  {
    assert LIC1_PREFIX[0] == 0x4c && LIC2_PREFIX[0] == 0x76;
    assert token[0] == Prefix(f)[0];
    assert codecs[1..] == [codecs[1]];
  }

  // ---------- what a signing input determines ----------

  lemma {:induction false} AsciiEncodes(t: Text)
    requires forall i :: 0 <= i < |t| ==> t[i] < 0x80
    ensures Utf8.Encode(t) == t
    decreases |t|
  {
    if t != [] {
      AsciiEncodes(t[1..]);
      assert t == [t[0]] + t[1..];
    }
  }

  predicate IsSegment(t: Text) {
    forall i :: 0 <= i < |t| ==> Base64.IsUrl(t[i])
  }

  // Joining two base64url segments with a dot loses nothing.
  lemma JoinDetermines(a: Text, b: Text, c: Text, d: Text)
    requires IsSegment(a) && IsSegment(b) && IsSegment(c) && IsSegment(d)
    requires Utf8.Encode(a + DOT_TEXT + b) == Utf8.Encode(c + DOT_TEXT + d)
    ensures a == c && b == d
  {
    SegmentPair(a, b);
    SegmentPair(c, d);
    hide Split, Utf8.Encode, IsSegment;
    assert ([a] + [b])[0] == a && ([a] + [b])[1] == b;
  }

  lemma SegmentPair(a: Text, b: Text)
    requires IsSegment(a) && IsSegment(b)
    ensures Utf8.Encode(a + DOT_TEXT + b) == a + DOT_TEXT + b
    ensures Split(a + DOT_TEXT + b) == [a] + [b]
  {
    hide Utf8.Encode, Split;
    AsciiEncodes(a + DOT_TEXT + b);
    SplitHead(a, b);
    SplitOne(b);
  }

  // A LIC1 signing input determines header and payload.
  lemma Lic1InputDetermines(h: Bytes, p: Bytes, g: Bytes, q: Bytes)
    requires Lic1Input(h, p) == Lic1Input(g, q)
    ensures h == g && p == q
  {
    Base64.EncodeMeans(h);
    Base64.EncodeMeans(p);
    Base64.EncodeMeans(g);
    Base64.EncodeMeans(q);
    JoinDetermines(Base64.Encode(h), Base64.Encode(p), Base64.Encode(g), Base64.Encode(q));
    Base64.UrlRoundTrip(h);
    Base64.UrlRoundTrip(p);
    Base64.UrlRoundTrip(g);
    Base64.UrlRoundTrip(q);
  }

  // A LIC2 signing input determines message and footer, below 2^63 octets each.
  lemma Lic2InputDetermines(m: Bytes, f: Bytes, n: Bytes, g: Bytes)
    requires |m| < Pae.TOP && |f| < Pae.TOP && |n| < Pae.TOP && |g| < Pae.TOP
    requires Lic2Input(m, f) == Lic2Input(n, g)
    ensures m == n && f == g
  {
    hide Pae.Encoding;
    var h := Utf8.Encode(LIC2_PREFIX);
    AsciiEncodes(LIC2_PREFIX);
    var ps, qs := [h, m, f, []], [h, n, g, []];
    Pae.EncodingInjective(ps, qs);
    assert ps[1] == qs[1] && ps[2] == qs[2];
  }

  // No signing input of one format is one of the other: LIC1's starts with a printable
  // character, LIC2's with the octet 4.
  lemma InputsDisjoint(a: Text, b: Text, m: Bytes, f: Bytes)
    requires IsSegment(a) && IsSegment(b)
    ensures Utf8.Encode(a + DOT_TEXT + b) != Lic2Input(m, f)
  {
    var t := a + DOT_TEXT + b;
    AsciiEncodes(t);
    assert t[0] >= 0x2d;
    assert Lic2Input(m, f)[0] == Pae.Le64(4)[0];
    assert Pae.Le64(4)[0] == 4;
  }

  // ---------- signatures ----------

  // Decoding commits to the bytes that were signed.
  lemma Lic1Segments(token: Text)
    requires DecodeLic1(token).Ok?
    ensures |Split(token)| == 4 && IsSegment(Split(token)[1]) && IsSegment(Split(token)[2])
    ensures DecodeLic1(token).value.signingInput == Utf8.Encode(Split(token)[1] + DOT_TEXT + Split(token)[2])
  {
    hide ParseHeader, ParseObject, Split, Base64.Decode;
    var parts := Split(token);
    Base64.DecodeAccepts(parts[1]);
    Base64.DecodeAccepts(parts[2]);
  }

  // A signature that verifies under the key of an issued token is that token's, or signs other
  // content: an accepted token that carries an issued token's signature has its payload and
  // kid, whatever else was changed, the format included.
  lemma AcceptedIsIssued(t: Trust, token: Text, issued: Text)
    requires t.backend.Injective()
    requires VerifyEnvelope(t, token).Ok? && VerifyEnvelope(t, issued).Ok?
    requires |token| < Pae.TOP && |issued| < Pae.TOP
    requires
      var e, d := VerifyEnvelope(t, token).value, VerifyEnvelope(t, issued).value;
      e.signature == d.signature && e.alg == d.alg && t.keys[e.kid].public == t.keys[d.kid].public
    ensures
      var e, d := VerifyEnvelope(t, token).value, VerifyEnvelope(t, issued).value;
      e.payload == d.payload && e.kid == d.kid
  {
    hide DecodeLic1, DecodeLic2, CodecFor;
    var e, d := VerifyEnvelope(t, token).value, VerifyEnvelope(t, issued).value;
    assert e.signingInput == d.signingInput;
    var x, y := CodecFor(t.codecs, token).value.format, CodecFor(t.codecs, issued).value.format;
    if x == Lic1 && y == Lic1 {
      SameLic1(token, issued);
    } else if x == Lic2 && y == Lic2 {
      SameLic2(token, issued);
    } else if x == Lic1 {
      Lic1IsNotLic2(token, issued);
    } else {
      Lic1IsNotLic2(issued, token);
    }
  }

  lemma Lic1IsNotLic2(token: Text, other: Text)
    requires LIC2_PREFIX <= other && DecodeLic1(token).Ok? && DecodeLic2(other).Ok?
    ensures DecodeLic1(token).value.signingInput != DecodeLic2(other).value.signingInput
  {
    Lic1Segments(token);
    var message, footer := Lic2Bytes(other);
    hide DecodeLic1, DecodeLic2, Split, Lic2Input;
    InputsDisjoint(Split(token)[1], Split(token)[2], message, footer);
  }

  lemma SameLic1(token: Text, issued: Text)
    requires DecodeLic1(token).Ok? && DecodeLic1(issued).Ok?
    requires DecodeLic1(token).value.signingInput == DecodeLic1(issued).value.signingInput
    ensures DecodeLic1(token).value.payload == DecodeLic1(issued).value.payload
    ensures DecodeLic1(token).value.kid == DecodeLic1(issued).value.kid
  {
    hide ParseHeader, ParseObject, Split, FromBase64;
    Lic1Segments(token);
    Lic1Segments(issued);
    JoinDetermines(Split(token)[1], Split(token)[2], Split(issued)[1], Split(issued)[2]);
  }

  // The message and footer a LIC2 token decodes from.
  lemma Lic2Bytes(token: Text) returns (message: Bytes, footer: Bytes)
    requires LIC2_PREFIX <= token && DecodeLic2(token).Ok?
    ensures |message| <= |token| && |footer| <= |token|
    ensures DecodeLic2(token).value.signingInput == Lic2Input(message, footer)
    ensures ParseFooter(footer) == Ok(DecodeLic2(token).value.kid)
    ensures ParseObject(message) == Ok(DecodeLic2(token).value.payload)
  {
    hide ParseFooter, ParseObject, Split, Lic2Input, Base64.Decode;
    var segments := Split(token[|LIC2_PREFIX|..]);
    var body := FromBase64(segments[0]).value;
    message := body[..|body| - SIG_LEN];
    footer := FromBase64(segments[1]).value;
    SegmentSize(segments[0]);
    SegmentSize(segments[1]);
    SplitSizes(token[|LIC2_PREFIX|..], 0);
    SplitSizes(token[|LIC2_PREFIX|..], 1);
  }

  lemma SegmentSize(t: Text)
    requires Base64.Decode(t).Ok?
    ensures |Base64.Decode(t).value| <= |t|
  {
    Base64.DecodeMeans(t);
    OctetsSize(Base64.Values(t));
  }

  lemma {:induction false} OctetsSize(s: seq<Base64.Sextet>)
    ensures |Base64.Octets(s)| <= |s|
    decreases |s|
  {
    if |s| >= 4 {
      OctetsSize(s[4..]);
    }
  }

  lemma {:induction false} SplitSizes(t: Text, i: nat)
    requires i < |Split(t)|
    ensures |Split(t)[i]| <= |t|
    decreases |t|
  {
    if t != [] {
      var rest := Split(t[1..]);
      SplitSizes(t[1..], 0);
      if t[0] == DOT {
        if i > 0 {
          SplitSizes(t[1..], i - 1);
        }
      } else {
        SplitSizes(t[1..], i);
      }
    }
  }

  lemma SameLic2(token: Text, issued: Text)
    requires |token| < Pae.TOP && |issued| < Pae.TOP
    requires LIC2_PREFIX <= token && LIC2_PREFIX <= issued && DecodeLic2(token).Ok? && DecodeLic2(issued).Ok?
    requires DecodeLic2(token).value.signingInput == DecodeLic2(issued).value.signingInput
    ensures DecodeLic2(token).value.payload == DecodeLic2(issued).value.payload
    ensures DecodeLic2(token).value.kid == DecodeLic2(issued).value.kid
  {
    hide DecodeLic2, ParseFooter, ParseObject, Lic2Input;
    var m, f := Lic2Bytes(token);
    var n, g := Lic2Bytes(issued);
    Lic2InputDetermines(m, f, n, g);
  }
}
