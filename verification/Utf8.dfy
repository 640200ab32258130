// UTF-8 as the runtimes implement it: TextEncoder, which replaces unpaired surrogates, and a
// fatal TextDecoder, which rejects every ill-formed sequence and drops a leading byte-order
// mark.
module Utf8 {
  import opened Base
  import opened JsonValue

  type Point = x: int | 0 <= x < 0x11_0000

  const REPLACEMENT: Point := 0xfffd
  const BOM: Bytes := [0xef, 0xbb, 0xbf]

  predicate Scalar(p: Point) {
    !(0xd800 <= p <= 0xdfff)
  }

  predicate Cont(x: Byte) {
    0x80 <= x <= 0xbf
  }

  // ---------- encoding ----------

  function EncodePoint(p: Point): Bytes {
    if p < 0x80 then [p]
    else if p < 0x800 then [0xc0 + p / 0x40, 0x80 + p % 0x40]
    else if p < 0x1_0000 then [0xe0 + p / 0x1000, 0x80 + p / 0x40 % 0x40, 0x80 + p % 0x40]
    else [0xf0 + p / 0x4_0000, 0x80 + p / 0x1000 % 0x40, 0x80 + p / 0x40 % 0x40, 0x80 + p % 0x40]
  }

  function PairPoint(high: Unit, low: Unit): Point
    requires High(high) && Low(low)
  {
    0x1_0000 + (high - 0xd800) * 0x400 + (low - 0xdc00)
  }

  // The first code point of a text and how many units it takes.
  function FirstPoint(t: Text): (Point, nat)
    requires t != []
    ensures 1 <= FirstPoint(t).1 <= |t| && Scalar(FirstPoint(t).0)
  {
    if High(t[0]) && |t| > 1 && Low(t[1]) then (PairPoint(t[0], t[1]), 2)
    else if High(t[0]) || Low(t[0]) then (REPLACEMENT, 1)
    else (t[0], 1)
  }

  function Encode(t: Text): Bytes
    decreases |t|
  {
    if t == [] then []
    else
      var (p, n) := FirstPoint(t);
      EncodePoint(p) + Encode(t[n..])
  }

  // ---------- decoding ----------

  // The first code point of a byte string, by the well-formed byte sequences of Unicode.
  function DecodePoint(b: Bytes): (r: Option<(Point, nat)>)
    ensures r.Some? ==> 1 <= r.value.1 <= |b| && Scalar(r.value.0)
  {
    if b == [] then None
    else if b[0] < 0x80 then Some((b[0], 1))
    else if 0xc2 <= b[0] <= 0xdf && |b| > 1 && Cont(b[1]) then
      Some(((b[0] as int - 0xc0) * 0x40 + (b[1] - 0x80), 2))
    else if 0xe0 <= b[0] <= 0xef && |b| > 2 && Cont(b[1]) && Cont(b[2])
      && (b[0] == 0xe0 ==> b[1] >= 0xa0) && (b[0] == 0xed ==> b[1] <= 0x9f) then
      Some(((b[0] as int - 0xe0) * 0x1000 + (b[1] as int - 0x80) * 0x40 + (b[2] - 0x80), 3))
    else if 0xf0 <= b[0] <= 0xf4 && |b| > 3 && Cont(b[1]) && Cont(b[2]) && Cont(b[3])
      && (b[0] == 0xf0 ==> b[1] >= 0x90) && (b[0] == 0xf4 ==> b[1] <= 0x8f) then
      Some(((b[0] as int - 0xf0) * 0x4_0000 + (b[1] as int - 0x80) * 0x1000
            + (b[2] as int - 0x80) * 0x40 + (b[3] - 0x80), 4))
    else None
  }

  function UnitsOf(p: Point): Text
    requires Scalar(p)
  {
    if p < 0x1_0000 then [p]
    else [0xd800 + (p - 0x1_0000) / 0x400, 0xdc00 + (p - 0x1_0000) % 0x400]
  }

  function DecodeAll(b: Bytes): Option<Text>
    decreases |b|
  {
    if b == [] then Some([])
    else
      match DecodePoint(b)
      case None => None
      case Some((p, n)) =>
        match DecodeAll(b[n..])
        case None => None
        case Some(rest) => Some(UnitsOf(p) + rest)
  }

  // new TextDecoder('utf-8', { fatal: true }).decode
  function Decode(b: Bytes): Option<Text> {
    DecodeAll(if BOM <= b then b[3..] else b)
  }

  // ---------- they are inverse ----------

  lemma DecodesPoint(p: Point, rest: Bytes)
    requires Scalar(p)
    ensures DecodePoint(EncodePoint(p) + rest) == Some((p, |EncodePoint(p)|))
  {
    var b := EncodePoint(p) + rest;
    assert b[..|EncodePoint(p)|] == EncodePoint(p);
    if p < 0x80 {
      assert b[0] == p;
    } else if p < 0x800 {
      assert b[0] == 0xc0 + p / 0x40 && b[1] == 0x80 + p % 0x40;
    } else if p < 0x1_0000 {
      DecodesThree(p, b);
    } else {
      DecodesFour(p, b);
    }
  }

  lemma DecodesThree(p: Point, b: Bytes)
    requires Scalar(p) && 0x800 <= p < 0x1_0000 && EncodePoint(p) <= b
    ensures DecodePoint(b) == Some((p, 3))
  {
    var e := EncodePoint(p);
    assert b[0] == e[0] && b[1] == e[1] && b[2] == e[2];
    ThreeDigits(p);
    hide EncodePoint;
  }

  lemma DecodesFour(p: Point, b: Bytes)
    requires p >= 0x1_0000 && EncodePoint(p) <= b
    ensures DecodePoint(b) == Some((p, 4))
  {
    var e := EncodePoint(p);
    assert b[0] == e[0] && b[1] == e[1] && b[2] == e[2] && b[3] == e[3];
    FourDigits(p);
    hide EncodePoint;
  }

  lemma ThreeDigits(p: nat)
    ensures p / 0x1000 * 0x1000 + p / 0x40 % 0x40 * 0x40 + p % 0x40 == p
    ensures 0x800 <= p < 0x1000 ==> p / 0x40 % 0x40 >= 0x20
    ensures 0xd000 <= p < 0xd800 ==> p / 0x40 % 0x40 <= 0x1f
  {
    assert p / 0x40 / 0x40 == p / 0x1000;
  }

  lemma FourDigits(p: nat)
    ensures p / 0x4_0000 * 0x4_0000 + p / 0x1000 % 0x40 * 0x1000 + p / 0x40 % 0x40 * 0x40 + p % 0x40 == p
    ensures 0x1_0000 <= p < 0x4_0000 ==> p / 0x1000 % 0x40 >= 0x10
    ensures 0x10_0000 <= p < 0x11_0000 ==> p / 0x1000 % 0x40 <= 0xf
  {
    assert p / 0x40 / 0x40 == p / 0x1000 && p / 0x1000 / 0x40 == p / 0x4_0000;
  }

  lemma EncodesPoint(b: Bytes)
    requires DecodePoint(b).Some?
    ensures var (p, n) := DecodePoint(b).value; EncodePoint(p) == b[..n]
  {
    var (p, n) := DecodePoint(b).value;
    if n == 2 {
      assert p / 0x40 == b[0] - 0xc0 && p % 0x40 == b[1] - 0x80;
    } else if n == 3 {
      Digits3(b[0] - 0xe0, b[1] - 0x80, b[2] - 0x80, p);
      hide DecodePoint;
    } else if n == 4 {
      Digits4(b[0] - 0xf0, b[1] - 0x80, b[2] - 0x80, b[3] - 0x80, p);
      hide DecodePoint;
    }
  }

  lemma Digits3(x: nat, y: nat, z: nat, p: nat)
    requires y < 0x40 && z < 0x40 && p == x * 0x1000 + y * 0x40 + z
    ensures p / 0x1000 == x && p / 0x40 % 0x40 == y && p % 0x40 == z
  {
    var q := x * 0x40 + y;
    assert p == q * 0x40 + z;
    assert p / 0x40 == q && q / 0x40 == x;
  }

  lemma Digits4(w: nat, x: nat, y: nat, z: nat, p: nat)
    requires x < 0x40 && y < 0x40 && z < 0x40 && p == w * 0x4_0000 + x * 0x1000 + y * 0x40 + z
    ensures p / 0x4_0000 == w && p / 0x1000 % 0x40 == x && p / 0x40 % 0x40 == y && p % 0x40 == z
  {
    var q := w * 0x1000 + x * 0x40 + y;
    assert p == q * 0x40 + z;
    Digits3(w, x, y, q);
    assert p / 0x40 == q && p / 0x1000 == q / 0x40 && p / 0x4_0000 == q / 0x1000;
  }

  lemma UnitsRead(p: Point, rest: Text)
    requires Scalar(p)
    ensures FirstPoint(UnitsOf(p) + rest) == (p, |UnitsOf(p)|)
    ensures (UnitsOf(p) + rest)[|UnitsOf(p)|..] == rest
    ensures WellFormed(UnitsOf(p) + rest) <==> WellFormed(rest)
  {
    var t := UnitsOf(p) + rest;
    if p >= 0x1_0000 {
      var v := p - 0x1_0000;
      assert t[0] == 0xd800 + v / 0x400 && t[1] == 0xdc00 + v % 0x400;
      assert v / 0x400 * 0x400 + v % 0x400 == v;
      assert t[2..] == rest;
    } else {
      assert t[0] == p && t[1..] == rest;
    }
  }

  lemma WellFormedFirst(t: Text)
    requires t != [] && WellFormed(t)
    ensures var (p, n) := FirstPoint(t);
      UnitsOf(p) == t[..n] && WellFormed(t[n..])
  {
    if High(t[0]) {
      var v := (t[0] as int - 0xd800) * 0x400 + (t[1] as int - 0xdc00);
      assert v / 0x400 == t[0] - 0xd800 && v % 0x400 == t[1] - 0xdc00;
    }
  }

  // Every byte string that decodes is the encoding of its text, which is well formed.
  lemma {:induction false} EncodesDecoded(b: Bytes)
    ensures DecodeAll(b).Some? ==> Encode(DecodeAll(b).value) == b && WellFormed(DecodeAll(b).value)
    decreases |b|
  {
    hide DecodePoint, EncodePoint, UnitsOf, FirstPoint, WellFormed;
    if b == [] {
      NothingWellFormed();
    } else if DecodePoint(b).Some? {
      var (p, n) := DecodePoint(b).value;
      EncodesDecoded(b[n..]);
      if DecodeAll(b[n..]).Some? {
        EncodesPoint(b);
        EncodeStep(p, DecodeAll(b[n..]).value);
        assert b == b[..n] + b[n..];
      }
    }
  }

  lemma NothingWellFormed()
    ensures WellFormed([])
  {
  }

  lemma EncodeStep(p: Point, rest: Text)
    requires Scalar(p)
    ensures Encode(UnitsOf(p) + rest) == EncodePoint(p) + Encode(rest)
    ensures WellFormed(UnitsOf(p) + rest) <==> WellFormed(rest)
  {
    UnitsRead(p, rest);
    hide FirstPoint, EncodePoint, WellFormed;
    assert UnitsOf(p) + rest != [];
  }

  lemma {:induction false} DecodesEncoded(t: Text)
    requires WellFormed(t)
    ensures DecodeAll(Encode(t)) == Some(t)
    decreases |t|
  {
    if t != [] {
      var (p, n) := FirstPoint(t);
      WellFormedFirst(t);
      DecodesEncoded(t[n..]);
      DecodesPoint(p, Encode(t[n..]));
      var b := EncodePoint(p) + Encode(t[n..]);
      assert b[|EncodePoint(p)|..] == Encode(t[n..]);
      assert t == t[..n] + t[n..];
    }
  }

  // Encoding replaces: what comes back is well formed and the same length of units.
  lemma {:induction false} DecodesReplaced(t: Text)
    ensures DecodeAll(Encode(t)).Some? && WellFormed(DecodeAll(Encode(t)).value)
    decreases |t|
  {
    if t != [] {
      var (p, n) := FirstPoint(t);
      DecodesReplaced(t[n..]);
      DecodesPoint(p, Encode(t[n..]));
      var b := EncodePoint(p) + Encode(t[n..]);
      assert b[|EncodePoint(p)|..] == Encode(t[n..]);
      UnitsRead(p, DecodeAll(Encode(t[n..])).value);
    }
  }

  // A text survives encoding and decoding exactly when it is well formed and does not begin
  // with a byte-order mark.
  lemma RoundTripExactly(t: Text)
    ensures Decode(Encode(t)) == Some(t) <==> WellFormed(t) && !(t != [] && t[0] == 0xfeff)
  {
    hide Encode, DecodeAll, WellFormed;
    DecodesReplaced(t);
    var b := Encode(t);
    EncodesDecoded(b);
    if WellFormed(t) {
      DecodesEncoded(t);
      BomText(t);
    }
    if BOM <= b {
      EncodesDecoded(b[3..]);
      assert |b[3..]| == |b| - 3;
    }
  }

  // Only a leading U+FEFF encodes to a leading mark.
  lemma BomText(t: Text)
    requires WellFormed(t)
    ensures BOM <= Encode(t) <==> t != [] && t[0] == 0xfeff
  {
    if t != [] {
      var (p, n) := FirstPoint(t);
      var b := EncodePoint(p) + Encode(t[n..]);
      DecodesPoint(p, Encode(t[n..]));
      assert BOM <= b <==> |b| >= 3 && b[0] == 0xef && b[1] == 0xbb && b[2] == 0xbf by {
        assert |b| >= 3 ==> b[..3] == [b[0], b[1], b[2]];
      }
      assert p == 0xfeff <==> t[0] == 0xfeff;
    }
  }

  // Different well-formed texts have different encodings.
  lemma EncodeInjective(a: Text, b: Text)
    requires WellFormed(a) && WellFormed(b) && Encode(a) == Encode(b)
    ensures a == b
  {
    DecodesEncoded(a);
    DecodesEncoded(b);
  }
}
