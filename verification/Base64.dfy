// The two base-64 forms (RFC 4648 sections 4 and 5): the runtime's padded encoder and its
// lenient decoder, and base64url, which strips the padding and rejects it on the way back.
module Base64 {
  import opened Base

  type Sextet = x: int | 0 <= x < 64

  datatype Base64Error = HasPadding | InvalidCharacter

  const PLUS: Unit := 0x2b
  const SLASH: Unit := 0x2f
  const DASH: Unit := 0x2d
  const UNDERSCORE: Unit := 0x5f
  const PAD: Unit := 0x3d

  // ---------- bits ----------

  // Three octets are four sextets; one or two left over are padded with zero bits.
  function Sextets(b: Bytes): (s: seq<Sextet>)
    decreases |b|
  {
    if |b| == 0 then []
    else if |b| == 1 then [b[0] / 4, b[0] % 4 * 16]
    else if |b| == 2 then [b[0] / 4, b[0] % 4 * 16 + b[1] / 16, b[1] % 16 * 4]
    else [b[0] / 4, b[0] % 4 * 16 + b[1] / 16, b[1] % 16 * 4 + b[2] / 64, b[2] % 64] + Sextets(b[3..])
  }

  function First(x: Sextet, y: Sextet): Byte {
    (x as int) * 4 + y / 16
  }

  function Second(x: Sextet, y: Sextet): Byte {
    (x as int) % 16 * 16 + y / 4
  }

  function Third(x: Sextet, y: Sextet): Byte {
    (x as int) % 4 * 64 + y
  }

  // Bits that do not fill an octet are dropped, as is a lone sextet.
  function Octets(s: seq<Sextet>): Bytes
    decreases |s|
  {
    if |s| < 2 then []
    else if |s| == 2 then [First(s[0], s[1])]
    else if |s| == 3 then [First(s[0], s[1]), Second(s[1], s[2])]
    else [First(s[0], s[1]), Second(s[1], s[2]), Third(s[2], s[3])] + Octets(s[4..])
  }

  // The unused low bits of a final partial group are zero, and no sextet is alone.
  predicate Tight(s: seq<Sextet>)
    decreases |s|
  {
    if |s| == 0 then true
    else if |s| == 1 then false
    else if |s| == 2 then s[1] % 16 == 0
    else if |s| == 3 then s[2] % 4 == 0
    else Tight(s[4..])
  }

  lemma {:induction false} OctetsOfSextets(b: Bytes)
    ensures Octets(Sextets(b)) == b && Tight(Sextets(b))
    ensures |Sextets(b)| == (4 * |b| + 2) / 3
    decreases |b|
  {
    if |b| >= 3 {
      var group: seq<Sextet> :=
        [b[0] / 4, b[0] % 4 * 16 + b[1] / 16, b[1] % 16 * 4 + b[2] / 64, b[2] % 64];
      OctetsOfSextets(b[3..]);
      assert Sextets(b) == group + Sextets(b[3..]);
      assert (group + Sextets(b[3..]))[4..] == Sextets(b[3..]);
    }
  }

  lemma {:induction false} SextetsOfOctets(s: seq<Sextet>)
    ensures Sextets(Octets(s)) == s <==> Tight(s)
    decreases |s|
  {
    if |s| >= 4 {
      var group: Bytes := [First(s[0], s[1]), Second(s[1], s[2]), Third(s[2], s[3])];
      var rest := Octets(s[4..]);
      SextetsOfOctets(s[4..]);
      assert Octets(s) == group + rest;
      assert (group + rest)[3..] == rest;
      assert Sextets(group + rest) == s[..4] + Sextets(rest);
      assert s == s[..4] + s[4..];
      assert (s[..4] + Sextets(rest))[4..] == Sextets(rest);
    }
  }

  // ---------- characters ----------

  function Char(v: Sextet): Unit {
    if v < 26 then 0x41 + v
    else if v < 52 then 0x61 + v - 26
    else if v < 62 then 0x30 + v - 52
    else if v == 62 then PLUS
    else SLASH
  }

  function UrlChar(c: Unit): Unit {
    if c == PLUS then DASH else if c == SLASH then UNDERSCORE else c
  }

  function PlainChar(c: Unit): Unit {
    if c == DASH then PLUS else if c == UNDERSCORE then SLASH else c
  }

  predicate IsAlnum(c: Unit) {
    0x41 <= c <= 0x5a || 0x61 <= c <= 0x7a || 0x30 <= c <= 0x39
  }

  predicate IsUrl(c: Unit) {
    IsAlnum(c) || c == DASH || c == UNDERSCORE
  }

  // The runtime's decoder reads both alphabets.
  function Value(c: Unit): Option<Sextet> {
    if 0x41 <= c <= 0x5a then Some(c - 0x41)
    else if 0x61 <= c <= 0x7a then Some(c - 0x61 + 26)
    else if 0x30 <= c <= 0x39 then Some(c - 0x30 + 52)
    else if c == PLUS || c == DASH then Some(62)
    else if c == SLASH || c == UNDERSCORE then Some(63)
    else None
  }

  function Chars(s: seq<Sextet>): (t: Text)
    ensures |t| == |s|
  {
    seq(|s|, i requires 0 <= i < |s| => Char(s[i]))
  }

  function Map(t: Text, f: Unit -> Unit): (r: Text)
    ensures |r| == |t|
    ensures forall i :: 0 <= i < |t| ==> r[i] == f(t[i])
  {
    seq(|t|, i requires 0 <= i < |t| => f(t[i]))
  }

  // Characters outside the alphabets, padding included, are skipped.
  function Values(t: Text): seq<Sextet> {
    if t == [] then []
    else (match Value(t[0]) case Some(v) => [v] case None => []) + Values(t[1..])
  }

  function Padding(n: nat): Text {
    seq(n, _ => PAD)
  }

  // ---------- Buffer.toString('base64') and Buffer.from(text, 'base64') ----------

  function PadLength(n: nat): nat {
    (4 - n % 4) % 4
  }

  function EncodePadded(b: Bytes): Text {
    Chars(Sextets(b)) + Padding(PadLength(|Sextets(b)|))
  }

  function DecodeLenient(t: Text): Bytes {
    Octets(Values(t))
  }

  // ---------- base64url ----------

  // replace(/=+$/, '')
  function StripPadding(t: Text): Text {
    if t != [] && t[|t| - 1] == PAD then StripPadding(t[..|t| - 1]) else t
  }

  function Encode(b: Bytes): Text {
    StripPadding(Map(EncodePadded(b), UrlChar))
  }

  function Decode(t: Text): Result<Bytes, Base64Error> {
    if PAD in t then Err(HasPadding)
    else if exists i :: 0 <= i < |t| && !IsUrl(t[i]) then Err(InvalidCharacter)
    else Ok(DecodeLenient(Map(t, PlainChar) + Padding(PadLength(|t|))))
  }

  // ---------- what they mean ----------

  lemma {:induction false} ValuesAppend(a: Text, b: Text)
    ensures Values(a + b) == Values(a) + Values(b)
    decreases |a|
  {
    if a == [] {
      assert a + b == b;
    } else {
      assert (a + b)[1..] == a[1..] + b;
      ValuesAppend(a[1..], b);
    }
  }

  lemma {:induction false} PaddingIsSkipped(n: nat)
    ensures Values(Padding(n)) == []
  {
    if n > 0 {
      assert Padding(n)[1..] == Padding(n - 1);
      PaddingIsSkipped(n - 1);
    }
  }

  lemma {:induction false} ValuesOfChars(s: seq<Sextet>)
    ensures Values(Chars(s)) == s
    decreases |s|
  {
    if s != [] {
      assert Chars(s)[1..] == Chars(s[1..]);
      ValuesOfChars(s[1..]);
      assert s == [s[0]] + s[1..];
    }
  }

  // The runtime decodes what it encodes.
  lemma PaddedRoundTrip(b: Bytes)
    ensures DecodeLenient(EncodePadded(b)) == b
  {
    hide Sextets, Octets, Values, Padding;
    var s := Sextets(b);
    ValuesAppend(Chars(s), Padding(PadLength(|s|)));
    PaddingIsSkipped(PadLength(|s|));
    ValuesOfChars(s);
    assert s + [] == s;
    OctetsOfSextets(b);
  }

  // The padded form is a whole number of groups of four, padded with at most two '='.
  lemma PaddedShape(b: Bytes)
    ensures |EncodePadded(b)| == (|b| + 2) / 3 * 4
    ensures forall i :: 0 <= i < |EncodePadded(b)| ==>
      var c := EncodePadded(b)[i];
      IsAlnum(c) || c == PLUS || c == SLASH || (c == PAD && i >= |EncodePadded(b)| - 2)
  {
    hide Sextets, Octets, Tight;
    OctetsOfSextets(b);
    var n := |Sextets(b)|;
    assert PadLength(n) <= 2;
  }

  lemma {:induction false} StripsAll(t: Text, n: nat)
    requires t == [] || t[|t| - 1] != PAD
    ensures StripPadding(t + Padding(n)) == t
  {
    if n == 0 {
      assert t + Padding(n) == t;
    } else {
      assert (t + Padding(n))[..|t| + n - 1] == t + Padding(n - 1);
      StripsAll(t, n - 1);
    }
  }

  // base64url is the sextets in the URL alphabet, nothing else.
  lemma EncodeMeans(b: Bytes)
    ensures Encode(b) == Map(Chars(Sextets(b)), UrlChar)
    ensures |Encode(b)| == (4 * |b| + 2) / 3
    ensures forall i :: 0 <= i < |Encode(b)| ==> IsUrl(Encode(b)[i])
  {
    hide Sextets, Octets, Tight, StripPadding;
    OctetsOfSextets(b);
    var t := Map(Chars(Sextets(b)), UrlChar);
    var n := PadLength(|Sextets(b)|);
    assert Map(EncodePadded(b), UrlChar) == t + Padding(n);
    StripsAll(t, n);
  }

  // Decoding succeeds on exactly the texts over the URL alphabet.
  lemma DecodeAccepts(t: Text)
    ensures Decode(t).Ok? <==> forall i :: 0 <= i < |t| ==> IsUrl(t[i])
  {
    if PAD in t {
      var i :| 0 <= i < |t| && t[i] == PAD;
      assert !IsUrl(t[i]);
    }
  }

  lemma DecodeMeans(t: Text)
    requires Decode(t).Ok?
    ensures Decode(t).value == Octets(Values(t))
    ensures |Values(t)| == |t| && Map(Chars(Values(t)), UrlChar) == t
  {
    hide Octets, Values, Padding;
    var plain := Map(t, PlainChar);
    ValuesAppend(plain, Padding(PadLength(|t|)));
    PaddingIsSkipped(PadLength(|t|));
    ValuesOfUrl(t);
    assert Values(t) + [] == Values(t);
  }

  lemma {:induction false} ValuesOfUrl(t: Text)
    requires forall i :: 0 <= i < |t| ==> IsUrl(t[i])
    ensures Values(Map(t, PlainChar)) == Values(t)
    ensures |Values(t)| == |t| && Map(Chars(Values(t)), UrlChar) == t
    decreases |t|
  {
    if t != [] {
      var v := Value(t[0]).value;
      ValuesOfUrl(t[1..]);
      assert IsUrl(t[0]) && UrlChar(Char(v)) == t[0];
      assert Map(t, PlainChar)[1..] == Map(t[1..], PlainChar);
      assert Values(t) == [v] + Values(t[1..]);
      assert Chars(Values(t)) == [Char(v)] + Chars(Values(t[1..]));
      assert t == [t[0]] + t[1..];
    }
  }

  // Every byte string comes back.
  lemma UrlRoundTrip(b: Bytes)
    ensures Decode(Encode(b)) == Ok(b)
  {
    EncodeMeans(b);
    DecodeAccepts(Encode(b));
    DecodeMeans(Encode(b));
    var s := Sextets(b);
    ValuesOfChars(s);
    UrlChars(s);
    OctetsOfSextets(b);
  }

  lemma {:induction false} UrlChars(s: seq<Sextet>)
    ensures Values(Map(Chars(s), UrlChar)) == s
    decreases |s|
  {
    if s != [] {
      assert Map(Chars(s), UrlChar)[1..] == Map(Chars(s[1..]), UrlChar);
      UrlChars(s[1..]);
      assert s == [s[0]] + s[1..];
    }
  }

  // The other direction holds exactly for texts without a lone last character and with zero
  // bits where the last octet ends: any other accepted text is a second spelling of its bytes.
  lemma UrlSpelling(t: Text)
    requires Decode(t).Ok?
    ensures Encode(Decode(t).value) == t <==> Tight(Values(t))
  {
    DecodeMeans(t);
    EncodeMeans(Decode(t).value);
    SextetsOfOctets(Values(t));
    UrlChars(Sextets(Octets(Values(t))));
  }
}
