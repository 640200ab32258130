// Canonical JSON as bytes: what canonicalize returns and what tokens and attestations sign.
module CanonicalBytes {
  import opened Base
  import opened JsonValue
  import opened CanonicalJson
  import JsonRoundTrip
  import StrictJson
  import Utf16Order
  import Utf8

  // canonicalize: the UTF-8 encoding of the canonical text.
  ghost function Canonicalize(v: Json): Result<Bytes, CanonError> {
    match Canonical(v)
    case Ok(t) => Ok(Utf8.Encode(t))
    case Err(e) => Err(e)
  }

  // strictParse of decoded bytes; None is a decoding failure.
  ghost function ParseBytes(b: Bytes): Option<Json> {
    match Utf8.Decode(b)
    case None => None
    case Some(t) => match StrictJson.TextOf(t) case Ok(v) => Some(v) case Err(_) => None
  }

  // ---------- canonical texts are well formed ----------

  lemma {:induction false} WellFormedAppend(a: Text, b: Text)
    requires WellFormed(a) && WellFormed(b)
    ensures WellFormed(a + b)
    decreases |a|
  {
    if a == [] {
      assert a + b == b;
    } else if High(a[0]) {
      assert (a + b)[2..] == a[2..] + b;
      WellFormedAppend(a[2..], b);
    } else {
      assert (a + b)[1..] == a[1..] + b;
      WellFormedAppend(a[1..], b);
    }
  }

  lemma {:induction false} AsciiWellFormed(t: Text)
    requires forall i :: 0 <= i < |t| ==> t[i] < 0x80
    ensures WellFormed(t)
    decreases |t|
  {
    if t != [] {
      AsciiWellFormed(t[1..]);
    }
  }

  lemma PairWellFormed(high: Unit, low: Unit, t: Text)
    requires High(high) && Low(low) && WellFormed(t)
    ensures WellFormed([high] + ([low] + t))
  {
    assert ([high] + ([low] + t))[2..] == t;
  }

  lemma EscapeUnitWellFormed(c: Unit)
    requires !High(c) && !Low(c)
    ensures WellFormed(EscapeUnit(c))
  {
    if c < 0x80 {
      AsciiWellFormed(EscapeUnit(c));
    } else {
      assert EscapeUnit(c)[1..] == [];
    }
  }

  lemma {:induction false} EscapeWellFormed(s: Text)
    requires WellFormed(s)
    ensures WellFormed(Escape(s))
    decreases |s|
  {
    if s != [] {
      if High(s[0]) {
        EscapeWellFormed(s[2..]);
        assert s[1..][1..] == s[2..];
        assert EscapeUnit(s[0]) == [s[0]] && EscapeUnit(s[1]) == [s[1]];
        PairWellFormed(s[0], s[1], Escape(s[2..]));
      } else {
        EscapeWellFormed(s[1..]);
        EscapeUnitWellFormed(s[0]);
        WellFormedAppend(EscapeUnit(s[0]), Escape(s[1..]));
      }
      hide WellFormed, EscapeUnit;
    }
  }

  lemma {:induction false} DigitsWellFormed(n: nat)
    ensures WellFormed(Digits(n))
    decreases n
  {
    AsciiWellFormed([0x30 + n % 10]);
    if n >= 10 {
      DigitsWellFormed(n / 10);
      WellFormedAppend(Digits(n / 10), [0x30 + n % 10]);
    }
  }

  lemma Joined3(a: Text, b: Text, c: Text)
    requires WellFormed(a) && WellFormed(b) && WellFormed(c)
    ensures WellFormed(a + b + c)
  {
    WellFormedAppend(a, b);
    WellFormedAppend(a + b, c);
  }

  lemma StringWellFormed(s: Text)
    ensures PrintString(s).Ok? ==> WellFormed(PrintString(s).value)
  {
    if WellFormed(s) {
      EscapeWellFormed(s);
      AsciiWellFormed(QUOTE);
      Joined3(QUOTE, Escape(s), QUOTE);
    }
  }

  lemma {:induction false} PrintedWellFormed(v: Json)
    ensures PrintValue(v).Ok? ==> WellFormed(PrintValue(v).value)
    decreases v
  {
    hide WellFormed;
    if PrintValue(v).Ok? {
      match v
      case Null => AsciiWellFormed(NULL);
      case Bool(b) => AsciiWellFormed(if b then TRUE else FALSE);
      case Num(n) => DecimalWellFormed(n.r.Floor);
      case BigInt(i) => DecimalWellFormed(i);
      case Str(s) => StringWellFormed(s);
      case Arr(_) =>
        ItemsWellFormed(v, 0);
        AsciiWellFormed(OPEN_ARRAY);
        AsciiWellFormed(CLOSE_ARRAY);
        Joined3(OPEN_ARRAY, PrintItems(v, 0).value, CLOSE_ARRAY);
      case Obj(m) =>
        var ks := Utf16Order.SortedKeys(m.Keys);
        MembersWellFormed(v, ks, 0);
        AsciiWellFormed(OPEN_OBJECT);
        AsciiWellFormed(CLOSE_OBJECT);
        Joined3(OPEN_OBJECT, PrintMembers(v, ks, 0).value, CLOSE_OBJECT);
    }
  }

  lemma DecimalWellFormed(i: int)
    ensures WellFormed(Decimal(i))
  {
    if i < 0 {
      DigitsWellFormed(-i);
      AsciiWellFormed([0x2d]);
      WellFormedAppend([0x2d], Digits(-i));
    } else {
      DigitsWellFormed(i);
    }
  }

  lemma {:induction false} ItemsWellFormed(v: Json, i: nat)
    requires v.Arr? && i <= |v.items|
    ensures PrintItems(v, i).Ok? ==> WellFormed(PrintItems(v, i).value)
    decreases v, |v.items| - i
  {
    hide WellFormed;
    AsciiWellFormed(Separator(i));
    AsciiWellFormed([]);
    if i < |v.items| && PrintItems(v, i).Ok? {
      PrintedWellFormed(v.items[i]);
      ItemsWellFormed(v, i + 1);
      Joined3(Separator(i), PrintValue(v.items[i]).value, PrintItems(v, i + 1).value);
    }
  }

  lemma {:induction false} MembersWellFormed(v: Json, ks: seq<Text>, i: nat)
    requires v.Obj? && (forall k :: k in ks ==> k in v.members) && i <= |ks|
    ensures PrintMembers(v, ks, i).Ok? ==> WellFormed(PrintMembers(v, ks, i).value)
    decreases v, |ks| - i
  {
    hide WellFormed;
    AsciiWellFormed(Separator(i));
    AsciiWellFormed(COLON);
    AsciiWellFormed([]);
    if i < |ks| && PrintMembers(v, ks, i).Ok? {
      assert PrintMember(v, ks[i]).Ok? && PrintString(ks[i]).Ok?;
      StringWellFormed(ks[i]);
      PrintedWellFormed(v.members[ks[i]]);
      MembersWellFormed(v, ks, i + 1);
      Joined3(PrintString(ks[i]).value, COLON, PrintValue(v.members[ks[i]]).value);
      Joined3(Separator(i), PrintMember(v, ks[i]).value, PrintMembers(v, ks, i + 1).value);
    }
  }

  // ---------- bytes ----------

  lemma CanonicalDecodes(v: Json)
    requires Canonical(v).Ok?
    ensures WellFormed(Canonical(v).value) && Utf8.Decode(Canonicalize(v).value) == Some(Canonical(v).value)
  {
    PrintedWellFormed(v);
    Utf8.RoundTripExactly(Canonical(v).value);
    assert Canonical(v).value[0] == 0x7b;
  }

  // Parsing canonical bytes gives the value back, less what JSON parsing cannot hold; the very
  // value exactly without __proto__ keys and bigints.
  lemma BytesRoundTrip(v: Json)
    requires Canonicalize(v).Ok?
    ensures ParseBytes(Canonicalize(v).value) == Some(WithoutProto(Numeric(v)))
    ensures ParseBytes(Canonicalize(v).value) == Some(v) <==> NoProto(v) && NoBigInt(v)
  {
    CanonicalDecodes(v);
    JsonRoundTrip.RoundTrip(v);
    JsonRoundTrip.RoundTripExactly(v);
  }

  // Equal canonical bytes come from equal values.
  lemma BytesInjective(v: Json, w: Json)
    requires Canonicalize(v).Ok? && Canonicalize(v) == Canonicalize(w)
    requires NoBigInt(v) && NoBigInt(w)
    ensures v == w
  {
    PrintedWellFormed(v);
    PrintedWellFormed(w);
    Utf8.EncodeInjective(Canonical(v).value, Canonical(w).value);
    JsonRoundTrip.CanonicalInjective(v, w);
  }
}
