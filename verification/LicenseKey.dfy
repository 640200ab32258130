// License keys: the base-32 encoder over a wrapping accumulator, 32 bits wide in
// typescript/src/license-key.ts and 64 in licensing/license_key.go, grouping, and normalization.
module LicenseKey {
  import opened Base

  type Digit = x: int | 0 <= x < 32

  const UINT64 := 0x1_0000_0000_0000_0000

  // ---------- numbers ----------

  function Value32(d: seq<Digit>): nat {
    if d == [] then 0 else Value32(d[..|d| - 1]) * 32 + d[|d| - 1]
  }

  // The n lowest base-32 digits of a number.
  function Digits32(v: nat, n: nat): (d: seq<Digit>)
    ensures |d| == n
  {
    if n == 0 then [] else Digits32(v / 32, n - 1) + [v % 32]
  }

  function Pow2(k: nat): (p: nat)
    requires k <= 12
    ensures p > 0
  {
    match k
    case 0 => 1
    case 1 => 2
    case 2 => 4
    case 3 => 8
    case 4 => 16
    case 5 => 32
    case 6 => 64
    case 7 => 128
    case 8 => 256
    case 9 => 512
    case 10 => 1024
    case 11 => 2048
    case _ => 4096
  }

  // How many digits n octets take, and the zero bits that pad the last one.
  function DigitCount(n: nat): nat {
    (8 * n + 4) / 5
  }

  function PadBits(n: nat): (p: nat)
    ensures p < 5
  {
    (5 - 8 * n % 5) % 5
  }

  // The digits of the octets' bits, right-padded with zeros.
  function Encoded(b: Bytes): seq<Digit> {
    Digits32(BigEndian(b) * Pow2(PadBits(|b|)), DigitCount(|b|))
  }

  lemma Value32Push(d: seq<Digit>, x: Digit)
    ensures Value32(d + [x]) == Value32(d) * 32 + x
  {
    assert (d + [x])[..|d|] == d;
  }

  lemma {:induction false} DigitsOfValue(d: seq<Digit>)
    ensures Digits32(Value32(d), |d|) == d
    decreases |d|
  {
    if d != [] {
      DigitsOfValue(d[..|d| - 1]);
      assert d == d[..|d| - 1] + [d[|d| - 1]];
      assert Value32(d) / 32 == Value32(d[..|d| - 1]);
    }
  }

  // ---------- one digit from a wrapped accumulator ----------

  // Agreeing in the low 32 bits.
  predicate Congruent(buf: int, v: nat) {
    buf % UINT32 == v % UINT32
  }

  lemma MulAtLeast(p: int, d: int)
    requires p > 0 && d >= 1
    ensures p * d >= p
  {
  }

  lemma SmallMultiple(p: int, d: int)
    requires p > 0 && -p < p * d < p
    ensures d == 0
  {
    if d >= 1 {
      MulAtLeast(p, d);
    } else if d <= -1 {
      MulAtLeast(p, -d);
    }
  }

  lemma DivUnique(x: int, p: int, y: int, r: int)
    requires p > 0 && 0 <= r < p && x == p * y + r
    ensures x / p == y && x % p == r
  {
    assert p * (x / p) + x % p == x;
    assert p * (x / p - y) == p * (x / p) - p * y;
    SmallMultiple(p, x / p - y);
  }

  lemma Difference(buf: int, v: nat) returns (q: int)
    requires Congruent(buf, v)
    ensures buf == v + 0x1_0000_0000 * q
  {
    q := buf / 0x1_0000_0000 - v / 0x1_0000_0000;
  }

  // What completes 2^k * 32 to 2^32.
  function Cofactor(k: nat): nat
    requires k <= 7
  {
    match k
    case 0 => 0x800_0000
    case 1 => 0x400_0000
    case 2 => 0x200_0000
    case 3 => 0x100_0000
    case 4 => 0x80_0000
    case 5 => 0x40_0000
    case 6 => 0x20_0000
    case _ => 0x10_0000
  }

  lemma Multiply3(p: int, m: int, q: int)
    ensures p * (32 * (m * q)) == p * 32 * m * q
  {
    assert 32 * (m * q) == 32 * m * q;
    assert p * (32 * m * q) == p * (32 * m) * q;
    assert p * (32 * m) == p * 32 * m;
  }

  lemma Mod32(a: int, t: int)
    ensures (a + 32 * t) % 32 == a % 32
  {
  }

  lemma DigitAt(buf: int, v: nat, k: nat)
    requires k <= 7 && Congruent(buf, v)
    ensures buf / Pow2(k) % 32 == v / Pow2(k) % 32
  {
    var q := Difference(buf, v);
    var p, m := Pow2(k), Cofactor(k);
    assert p * 32 * m == 0x1_0000_0000;
    hide Pow2, Cofactor, Congruent;
    var a, r := v / p, v % p;
    Multiply3(p, m, q);
    assert p * (a + 32 * (m * q)) == p * a + p * (32 * (m * q));
    DivUnique(buf, p, a + 32 * (m * q), r);
    Mod32(a, m * q);
  }

  lemma LastDigit(buf: int, v: nat, k: nat)
    requires 1 <= k <= 4 && Congruent(buf, v)
    ensures buf * Pow2(5 - k) % 32 == v * Pow2(5 - k) % 32
    ensures v / Pow2(k) * 32 + v * Pow2(5 - k) % 32 == v * Pow2(5 - k)
  {
    var q := Difference(buf, v);
    var p, s := Pow2(k), Pow2(5 - k);
    assert p * s == 32 && 0 < s <= 16;
    hide Pow2, Congruent;
    var a, r := v / p, v % p;
    Products(p, s, a, r);
    DivUnique(v * s, 32, a, r * s);
    WideProduct(v, q, s);
    Mod32(v * s, 0x800_0000 * (q * s));
  }

  lemma Products(p: nat, s: nat, a: nat, r: nat)
    requires p * s == 32 && r < p && s > 0
    ensures (p * a + r) * s == 32 * a + r * s
    ensures 0 <= r * s < 32
  {
    assert (p * a + r) * s == p * a * s + r * s;
    assert p * a * s == p * s * a;
    assert r * s <= (p - 1) * s == p * s - s;
  }

  lemma WideProduct(v: int, q: int, s: int)
    ensures (v + 0x1_0000_0000 * q) * s == v * s + 32 * (0x800_0000 * (q * s))
  {
    assert 0x1_0000_0000 * q * s == 0x1_0000_0000 * (q * s);
  }

  // Emitting moves five bits from the accumulator to the digits.
  lemma EmitStep(v: nat, bits: nat)
    requires 5 <= bits <= 12
    ensures v / Pow2(bits) * 32 + v / Pow2(bits - 5) % 32 == v / Pow2(bits - 5)
  {
    var w := v / Pow2(bits - 5);
    assert v / Pow2(bits) == w / 32 by {
      ShiftTwice(v, bits);
    }
  }

  lemma ShiftTwice(v: nat, bits: nat)
    requires 5 <= bits <= 12
    ensures v / Pow2(bits) == v / Pow2(bits - 5) / 32
  {
  }

  lemma ByteStep(v: nat, x: Byte, bits: nat)
    requires bits <= 4
    ensures (v * 256 + x) / Pow2(bits + 8) == v / Pow2(bits)
  {
  }

  // ---------- the two encoders ----------

  // What both loops keep: the digits are the bits above the ones still in the accumulator.
  ghost predicate Emitted(out: seq<Digit>, v: nat, bits: nat, seen: nat) {
    bits <= 12 && Value32(out) == v / Pow2(bits) && 8 * seen == 5 * |out| + bits
  }

  lemma EmitKeeps(out: seq<Digit>, v: nat, bits: nat, seen: nat, d: Digit)
    requires bits >= 5 && Emitted(out, v, bits, seen) && d == v / Pow2(bits - 5) % 32
    ensures Emitted(out + [d], v, bits - 5, seen)
  {
    EmitStep(v, bits);
    Value32Push(out, d);
  }

  lemma ByteKeeps(out: seq<Digit>, v: nat, bits: nat, seen: nat, x: Byte)
    requires bits <= 4 && Emitted(out, v, bits, seen)
    ensures Emitted(out, v * 256 + x, bits + 8, seen + 1)
  {
    ByteStep(v, x, bits);
  }

  lemma FinishEncoded(b: Bytes, out: seq<Digit>, bits: nat)
    requires bits <= 4 && Emitted(out, BigEndian(b), bits, |b|)
    ensures bits == 0 ==> out == Encoded(b)
    ensures bits > 0 ==> forall d: Digit ::
      d == BigEndian(b) * Pow2(5 - bits) % 32 ==> out + [d] == Encoded(b)
  {
    hide Value32, BigEndian, Digits32;
    var v := BigEndian(b);
    Counts(|b|, |out|, bits);
    if bits == 0 {
      assert v / Pow2(0) == v * Pow2(0);
      DigitsOfValue(out);
    } else {
      LastDigit(v, v, bits);
      hide Pow2;
      forall d: Digit | d == v * Pow2(5 - bits) % 32 ensures out + [d] == Encoded(b) {
        Value32Push(out, d);
        DigitsOfValue(out + [d]);
      }
    }
  }

  // The bits left over decide the padding.
  lemma Counts(seen: nat, digits: nat, bits: nat)
    requires bits <= 4 && 8 * seen == 5 * digits + bits
    ensures PadBits(seen) == if bits == 0 then 0 else 5 - bits
    ensures DigitCount(seen) == if bits == 0 then digits else digits + 1
  {
    DivUnique(8 * seen, 5, digits, bits);
    if bits == 0 {
      DivUnique(8 * seen + 4, 5, digits, 4);
    } else {
      DivUnique(8 * seen + 4, 5, digits + 1, bits - 1);
    }
  }

  lemma WrapCongruent(buf: int, v: nat, x: Byte)
    requires Congruent(buf, v)
    ensures Congruent(Wrap32(buf * 256) + x, v * 256 + x)
    ensures Congruent((buf * 256 + x) % UINT64, v * 256 + x)
  {
    var q := buf / UINT32 - v / UINT32;
    assert buf == v + UINT32 * q;
    var z := buf * 256 + x;
    assert z == v * 256 + x + UINT32 * (256 * q);
    SameLow(z, v * 256 + x, 256 * q);
    var j := (buf * 256 + 0x8000_0000) / UINT32;
    assert Wrap32(buf * 256) + x == z - UINT32 * j;
    SameLow(z, Wrap32(buf * 256) + x, j);
    var m := z / UINT64;
    assert z % UINT64 == z - UINT32 * (UINT32 * m);
    SameLow(z, z % UINT64, UINT32 * m);
  }

  lemma SameLow(a: int, b: int, q: int)
    requires a == b + UINT32 * q
    ensures a % UINT32 == b % UINT32
  {
  }

  // Wrapping at either width keeps the low five bits.
  lemma WrapLow(y: int)
    ensures Wrap32(y) % 32 == y % 32
    ensures y % UINT64 % 32 == y % 32
  {
    var j := (y + 0x8000_0000) / 0x1_0000_0000;
    assert Wrap32(y) == y + 32 * (-0x800_0000 * j);
    Mod32(y, -0x800_0000 * j);
    var m := y / 0x1_0000_0000_0000_0000;
    assert y % UINT64 == y + 32 * (-0x800_0000_0000_0000 * m);
    Mod32(y, -0x800_0000_0000_0000 * m);
  }

  // typescript/src/license-key.ts: shifts on signed 32-bit numbers.
  method Base32EncodeTs(bytes: Bytes) returns (out: seq<Digit>)
    ensures out == Encoded(bytes)
  {
    hide Value32, BigEndian, Emitted, Pow2, Wrap32;
    out := [];
    var buf := 0;
    var bits := 0;
    StartEmitted();
    for i := 0 to |bytes|
      invariant 0 <= bits <= 4
      invariant Congruent(buf, BigEndian(bytes[..i]))
      invariant Emitted(out, BigEndian(bytes[..i]), bits, i)
    {
      NextByte(bytes, i);
      ByteKeeps(out, BigEndian(bytes[..i]), bits, i, bytes[i]);
      WrapCongruent(buf, BigEndian(bytes[..i]), bytes[i]);
      buf := Wrap32(buf * 256) + bytes[i];
      bits := bits + 8;
      ghost var v := BigEndian(bytes[..i + 1]);
      while bits >= 5
        invariant 0 <= bits <= 12
        invariant Congruent(buf, v)
        invariant Emitted(out, v, bits, i + 1)
      {
        bits := bits - 5;
        DigitAt(buf, v, bits);
        EmitKeeps(out, v, bits + 5, i + 1, buf / Pow2(bits) % 32);
        out := out + [buf / Pow2(bits) % 32];
      }
    }
    assert bytes[..|bytes|] == bytes;
    FinishEncoded(bytes, out, bits);
    if bits > 0 {
      LastDigit(buf, BigEndian(bytes), bits);
      WrapLow(buf * Pow2(5 - bits));
      out := out + [Wrap32(buf * Pow2(5 - bits)) % 32];
    }
  }

  // licensing/license_key.go: shifts on unsigned 64-bit numbers.
  method Base32EncodeGo(bytes: Bytes) returns (out: seq<Digit>)
    ensures out == Encoded(bytes)
  {
    hide Value32, BigEndian, Emitted, Pow2;
    out := [];
    var buf: nat := 0;
    var bits := 0;
    StartEmitted();
    for i := 0 to |bytes|
      invariant 0 <= bits <= 4
      invariant Congruent(buf, BigEndian(bytes[..i]))
      invariant Emitted(out, BigEndian(bytes[..i]), bits, i)
    {
      NextByte(bytes, i);
      ByteKeeps(out, BigEndian(bytes[..i]), bits, i, bytes[i]);
      WrapCongruent(buf, BigEndian(bytes[..i]), bytes[i]);
      buf := (buf * 256 + bytes[i]) % UINT64;
      bits := bits + 8;
      ghost var v := BigEndian(bytes[..i + 1]);
      while bits >= 5
        invariant 0 <= bits <= 12
        invariant Congruent(buf, v)
        invariant Emitted(out, v, bits, i + 1)
      {
        bits := bits - 5;
        DigitAt(buf, v, bits);
        EmitKeeps(out, v, bits + 5, i + 1, buf / Pow2(bits) % 32);
        out := out + [buf / Pow2(bits) % 32];
      }
    }
    assert bytes[..|bytes|] == bytes;
    FinishEncoded(bytes, out, bits);
    if bits > 0 {
      LastDigit(buf, BigEndian(bytes), bits);
      WrapLow(buf * Pow2(5 - bits));
      out := out + [buf * Pow2(5 - bits) % UINT64 % 32];
    }
  }

  lemma StartEmitted()
    ensures Emitted([], BigEndian([]), 0, 0) && Congruent(0, BigEndian([]))
  {
  }

  lemma NextByte(bytes: Bytes, i: nat)
    requires i < |bytes|
    ensures BigEndian(bytes[..i + 1]) == BigEndian(bytes[..i]) * 256 + bytes[i]
  {
    BigEndianPush(bytes[..i], bytes[i]);
    assert bytes[..i] + [bytes[i]] == bytes[..i + 1];
  }

  // ---------- what the encoding determines ----------

  function Pow32(n: nat): nat {
    if n == 0 then 1 else 32 * Pow32(n - 1)
  }

  function Pow256(n: nat): nat {
    if n == 0 then 1 else 256 * Pow256(n - 1)
  }

  lemma {:induction false} DigitsHold(v: nat, n: nat)
    requires v < Pow32(n)
    ensures Value32(Digits32(v, n)) == v
    decreases n
  {
    if n > 0 {
      DigitsHold(v / 32, n - 1);
      Value32Push(Digits32(v / 32, n - 1), v % 32);
    }
  }

  lemma {:induction false} ValueBound(b: Bytes)
    ensures BigEndian(b) < Pow256(|b|)
    decreases |b|
  {
    if b != [] {
      ValueBound(b[..|b| - 1]);
    }
  }

  // n octets and the padding are exactly the digits' bits.
  lemma {:induction false} SameBits(n: nat)
    ensures Pow32(DigitCount(n)) == Pow256(n) * Pow2(PadBits(n))
    decreases n
  {
    if n >= 5 {
      hide Pow32, Pow256, Pow2;
      SameBits(n - 5);
      EightDigits(DigitCount(n - 5));
      FiveOctets(n - 5);
      CountsStep(n);
      hide DigitCount, PadBits;
      Scale(Pow32(DigitCount(n)), Pow32(DigitCount(n - 5)), Pow256(n - 5), Pow2(PadBits(n)), Pow256(n));
    } else {
      FewBits(n);
    }
  }

  lemma CountsStep(n: nat)
    requires n >= 5
    ensures DigitCount(n) == DigitCount(n - 5) + 8 && PadBits(n) == PadBits(n - 5)
  {
  }

  lemma FewBits(n: nat)
    requires n < 5
    ensures Pow32(DigitCount(n)) == Pow256(n) * Pow2(PadBits(n))
  {
    SmallPowers32();
    SmallPowers256();
    hide Pow32, Pow256;
    if n == 0 {
      assert DigitCount(0) == 0 && PadBits(0) == 0;
    } else if n == 1 {
      assert DigitCount(1) == 2 && PadBits(1) == 2;
    } else if n == 2 {
      assert DigitCount(2) == 4 && PadBits(2) == 4;
    } else if n == 3 {
      assert DigitCount(3) == 5 && PadBits(3) == 1;
    } else {
      assert DigitCount(4) == 7 && PadBits(4) == 3;
    }
  }

  lemma SmallPowers32()
    ensures Pow32(0) == 1 && Pow32(2) == 0x400 && Pow32(4) == 0x10_0000
    ensures Pow32(5) == 0x200_0000 && Pow32(7) == 0x8_0000_0000
  {
    assert Pow32(1) == 32 * Pow32(0);
    assert Pow32(2) == 32 * Pow32(1);
    assert Pow32(3) == 32 * Pow32(2);
    assert Pow32(4) == 32 * Pow32(3);
    assert Pow32(5) == 32 * Pow32(4);
    assert Pow32(6) == 32 * Pow32(5);
    assert Pow32(7) == 32 * Pow32(6);
  }

  lemma SmallPowers256()
    ensures Pow256(0) == 1 && Pow256(1) == 0x100 && Pow256(2) == 0x1_0000
    ensures Pow256(3) == 0x100_0000 && Pow256(4) == 0x1_0000_0000
  {
    assert Pow256(1) == 256 * Pow256(0);
    assert Pow256(2) == 256 * Pow256(1);
    assert Pow256(3) == 256 * Pow256(2);
    assert Pow256(4) == 256 * Pow256(3);
  }

  lemma Scale(a: nat, b: nat, x: nat, p: nat, y: nat)
    requires a == 0x100_0000_0000 * b && b == x * p && y == 0x100_0000_0000 * x
    ensures a == y * p
  {
  }

  lemma EightDigits(n: nat)
    ensures Pow32(n + 8) == 0x100_0000_0000 * Pow32(n)
  {
    assert Pow32(n + 8) == 32 * Pow32(n + 7) && Pow32(n + 7) == 32 * Pow32(n + 6);
    assert Pow32(n + 6) == 32 * Pow32(n + 5) && Pow32(n + 5) == 32 * Pow32(n + 4);
    assert Pow32(n + 4) == 32 * Pow32(n + 3) && Pow32(n + 3) == 32 * Pow32(n + 2);
    assert Pow32(n + 2) == 32 * Pow32(n + 1) && Pow32(n + 1) == 32 * Pow32(n);
  }

  lemma FiveOctets(n: nat)
    ensures Pow256(n + 5) == 0x100_0000_0000 * Pow256(n)
  {
    assert Pow256(n + 5) == 256 * Pow256(n + 4) && Pow256(n + 4) == 256 * Pow256(n + 3);
    assert Pow256(n + 3) == 256 * Pow256(n + 2) && Pow256(n + 2) == 256 * Pow256(n + 1);
  }

  // The digits, read as one number, are the octets' number shifted left by the padding: no bit
  // is lost to the wrapping accumulator.
  lemma EncodedMeans(b: Bytes)
    ensures Value32(Encoded(b)) == BigEndian(b) * Pow2(PadBits(|b|))
    ensures |Encoded(b)| == (8 * |b| + 4) / 5
  {
    hide Pow2, Pow32, Pow256, BigEndian, Value32, Digits32;
    ValueBound(b);
    SameBits(|b|);
    MulLess(BigEndian(b), Pow256(|b|), Pow2(PadBits(|b|)));
    DigitsHold(BigEndian(b) * Pow2(PadBits(|b|)), DigitCount(|b|));
  }

  lemma MulLess(x: nat, y: nat, p: nat)
    requires x < y && p > 0
    ensures x * p < y * p
  {
  }

  lemma {:induction false} BigEndianInjective(a: Bytes, b: Bytes)
    requires |a| == |b| && BigEndian(a) == BigEndian(b)
    ensures a == b
    decreases |a|
  {
    if a != [] {
      BigEndianInjective(a[..|a| - 1], b[..|b| - 1]);
      assert a == a[..|a| - 1] + [a[|a| - 1]] && b == b[..|b| - 1] + [b[|b| - 1]];
    }
  }

  // Different byte strings of one length have different digits.
  lemma EncodedInjective(a: Bytes, b: Bytes)
    requires |a| == |b| && Encoded(a) == Encoded(b)
    ensures a == b
  {
    hide BigEndian, Value32, Pow2, Encoded;
    EncodedMeans(a);
    EncodedMeans(b);
    Cancel(BigEndian(a), BigEndian(b), Pow2(PadBits(|a|)));
    BigEndianInjective(a, b);
  }

  lemma Cancel(x: nat, y: nat, p: nat)
    requires p > 0 && x * p == y * p
    ensures x == y
  {
    if x < y {
      MulLess(x, y, p);
    } else if y < x {
      MulLess(y, x, p);
    }
  }
}
