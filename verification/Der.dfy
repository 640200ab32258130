// The DER subset of the encrypted-PKCS#8 codec (ITU-T X.690): the emitter's length, INTEGER
// and OBJECT IDENTIFIER forms, and the parser with its signed 32-bit length arithmetic.
module Der {
  import opened Base

  const SEQUENCE: Byte := 0x30
  const OCTET_STRING: Byte := 0x04
  const OBJECT_IDENTIFIER: Byte := 0x06
  const INTEGER: Byte := 0x02
  const NULL: Byte := 0x05

  datatype DerError = TokenMalformed | BadOid | IntegerOutOfRange

  lemma {:induction false} BigEndianZero(b: Bytes)
    ensures BigEndian([0] + b) == BigEndian(b)
    decreases |b|
  {
    if b == [] {
      BigEndianPush([], 0);
      assert [0] + b == [] + [0];
    } else {
      var front := b[..|b| - 1];
      BigEndianZero(front);
      assert ([0] + b)[..|b|] == [0] + front;
    }
  }

  // ---------- lengths ----------

  function EncodeLen(n: nat): Bytes {
    if n < 0x80 then [n]
    else if n < 0x100 then [0x81, n]
    else if n < 0x1_0000 then [0x82, n / 0x100, n % 0x100]
    else if n < 0x100_0000 then [0x83, n / 0x1_0000, n / 0x100 % 0x100, n % 0x100]
    else [0x84, n / 0x100_0000 % 0x100, n / 0x1_0000 % 0x100, n / 0x100 % 0x100, n % 0x100]
  }

  // The definite length forms of X.690 section 8.1.3, short and long.
  function LengthValue(e: Bytes): Option<nat> {
    if e == [] then None
    else if e[0] < 0x80 then (if |e| == 1 then Some(e[0]) else None)
    else if e[0] != 0x80 && e[0] != 0xff && |e| == 1 + (e[0] - 0x80) then Some(BigEndian(e[1..]))
    else None
  }

  function Quad(a: nat, b: nat, c: nat, d: nat): nat {
    ((a * 0x100 + b) * 0x100 + c) * 0x100 + d
  }

  lemma BigEndianUpTo4(b: Bytes)
    requires |b| <= 4
    ensures |b| == 1 ==> BigEndian(b) == b[0]
    ensures |b| == 2 ==> BigEndian(b) == Quad(0, 0, b[0], b[1])
    ensures |b| == 3 ==> BigEndian(b) == Quad(0, b[0], b[1], b[2])
    ensures |b| == 4 ==> BigEndian(b) == Quad(b[0], b[1], b[2], b[3])
  {
    if |b| > 0 {
      var c := b[..|b| - 1];
      assert BigEndian(b) == BigEndian(c) * 256 + b[|b| - 1];
      if |c| > 0 {
        var d := c[..|c| - 1];
        assert BigEndian(c) == BigEndian(d) * 256 + c[|c| - 1];
        if |d| > 0 {
          var e := d[..|d| - 1];
          assert BigEndian(d) == BigEndian(e) * 256 + d[|d| - 1];
        }
      }
    }
  }

  // Section 10.1: among all definite encodings of a length the emitter's is the one shortest.
  lemma LengthIsShortest(n: nat, e: Bytes)
    requires n < UINT32
    requires LengthValue(e) == Some(n)
    ensures e == EncodeLen(n) || |EncodeLen(n)| < |e|
  {
    if 2 <= |e| <= 5 {
      BigEndianUpTo4(e[1..]);
      if |EncodeLen(n)| >= |e| {
        assert |e| == 1 + (e[0] - 0x80);
        LengthDigits(n, e);
      }
    }
  }

  lemma LengthDigits(n: nat, e: Bytes)
    requires n < UINT32
    requires 2 <= |e| <= 5 && e[0] == 0x80 + (|e| - 1)
    requires |EncodeLen(n)| >= |e|
    requires LengthValue(e) == Some(n)
    ensures e == EncodeLen(n)
  {
    BigEndianUpTo4(e[1..]);
    hide BigEndian, Quad;
    var a := if |e| == 5 then e[1] else 0;
    var b := if |e| >= 4 then e[|e| - 3] else 0;
    var c := if |e| >= 3 then e[|e| - 2] else 0;
    var d := e[|e| - 1];
    assert n == Quad(a, b, c, d);
    EncodeQuad(a, b, c, d, |e| - 1);
    assert e == [e[0]] + [a, b, c, d][5 - |e|..];
  }

  lemma EncodeQuad(a: Byte, b: Byte, c: Byte, d: Byte, k: nat)
    requires 1 <= k <= 4
    requires k < 4 ==> a == 0
    requires k < 3 ==> b == 0
    requires k < 2 ==> c == 0
    requires |EncodeLen(Quad(a, b, c, d))| > k
    ensures EncodeLen(Quad(a, b, c, d)) == [0x80 + k] + [a, b, c, d][4 - k..]
  {
    QuadDigits(a, b, c, d);
    QuadBounds(a, b, c, d);
    hide Quad;
  }

  lemma QuadBounds(a: Byte, b: Byte, c: Byte, d: Byte)
    ensures a == 0 ==> Quad(a, b, c, d) < 0x100_0000 && Quad(0, a, b, c) < 0x1_0000
    ensures a == 0 && b == 0 ==> Quad(a, b, c, d) < 0x1_0000 && Quad(0, 0, a, b) == 0 && Quad(0, a, b, c) == c
    ensures a == 0 && b == 0 && c == 0 ==> Quad(a, b, c, d) < 0x100
    ensures a == 0 ==> Quad(0, 0, a, b) == b
    ensures Quad(a, b, c, d) < UINT32
  {
  }

  lemma QuadDigits(a: Byte, b: Byte, c: Byte, d: Byte)
    ensures var q := Quad(a, b, c, d);
      && q % 0x100 == d
      && q / 0x100 % 0x100 == c && q / 0x100 == Quad(0, a, b, c)
      && q / 0x1_0000 % 0x100 == b && q / 0x1_0000 == Quad(0, 0, a, b)
      && q / 0x100_0000 % 0x100 == a
  {
  }

  // What the emitter writes denotes the length exactly below 2^32.
  lemma LengthIsExact(n: nat)
    ensures LengthValue(EncodeLen(n)) == Some(n) <==> n < UINT32
  {
    if n >= 0x80 {
      LongLength(n);
      hide EncodeLen, LengthValue;
    }
  }

  lemma LongLength(n: nat)
    requires n >= 0x80
    ensures LengthValue(EncodeLen(n)) == Some(n % UINT32)
  {
    var e := EncodeLen(n);
    BigEndianUpTo4(e[1..]);
    LowQuad(n);
    hide BigEndian, Quad;
    if n < 0x100 {
      HighOctets(n);
    } else if n < 0x1_0000 {
      HighOctets(n);
    } else if n < 0x100_0000 {
      HighOctets(n);
    }
  }

  // Octets above a number's own are zero.
  lemma HighOctets(n: nat)
    ensures n < 0x100_0000 ==> n / 0x100_0000 == 0 && n / 0x1_0000 % 0x100 == n / 0x1_0000
    ensures n < 0x1_0000 ==> n / 0x1_0000 == 0 && n / 0x100 % 0x100 == n / 0x100
    ensures n < 0x100 ==> n / 0x100 == 0 && n % UINT32 == n
  {
  }

  lemma LowQuad(n: nat)
    ensures Quad(n / 0x100_0000 % 0x100, n / 0x1_0000 % 0x100, n / 0x100 % 0x100, n % 0x100) == n % UINT32
  {
    var q := n / 0x100;
    var p := q / 0x100;
    assert n / 0x1_0000 == p && n / 0x100_0000 == p / 0x100;
  }

  // ---------- emitting ----------

  function TlvBytes(tag: Byte, content: Bytes): Bytes {
    [tag] + EncodeLen(|content|) + content
  }

  method Tlv(tag: Byte, content: Bytes) returns (r: Bytes)
    ensures r == TlvBytes(tag, content)
  {
    var len := EncodeLen(|content|);
    var out := new Byte[1 + |len| + |content|];
    out[0] := tag;
    Set(out, len, 1);
    assert out[..1 + |len|] == [tag] + len;
    Set(out, content, 1 + |len|);
    return out[..];
  }

  function Concat(parts: seq<Bytes>): Bytes {
    if parts == [] then [] else parts[0] + Concat(parts[1..])
  }

  lemma {:induction false} ConcatSplit(parts: seq<Bytes>, k: nat)
    requires k < |parts|
    ensures Concat(parts) == Concat(parts[..k]) + parts[k] + Concat(parts[k + 1..])
  {
    if k == 0 {
      assert parts[..0] == [];
    } else {
      ConcatSplit(parts[1..], k - 1);
      assert parts[1..][..k - 1] == parts[..k][1..];
      assert parts[1..][k..] == parts[k + 1..];
      AppendAssoc(parts[0], Concat(parts[1..k]), parts[k]);
    }
  }

  lemma ConcatPush(parts: seq<Bytes>, k: nat)
    requires k < |parts|
    ensures Concat(parts[..k + 1]) == Concat(parts[..k]) + parts[k]
  {
    var p := parts[..k + 1];
    ConcatSplit(p, k);
    assert p[..k] == parts[..k] && p[k + 1..] == [];
  }

  method ConcatParts(parts: seq<Bytes>) returns (r: Bytes)
    ensures r == Concat(parts)
  {
    var total := 0;
    var i := 0;
    while i < |parts|
      invariant 0 <= i <= |parts|
      invariant total == |Concat(parts[..i])|
    {
      ConcatPush(parts, i);
      total := total + |parts[i]|;
      i := i + 1;
    }
    assert parts[..|parts|] == parts;
    var out := new Byte[total];
    var off := 0;
    i := 0;
    while i < |parts|
      invariant 0 <= i <= |parts|
      invariant off == |Concat(parts[..i])| <= out.Length
      invariant out[..off] == Concat(parts[..i])
      invariant out.Length == |Concat(parts)|
    {
      ConcatPush(parts, i);
      ConcatSplit(parts, i);
      Set(out, parts[i], off);
      off := off + |parts[i]|;
      i := i + 1;
    }
    assert parts[..|parts|] == parts;
    return out[..];
  }

  function DerSequence(children: seq<Bytes>): Bytes {
    TlvBytes(SEQUENCE, Concat(children))
  }

  method Sequence(children: seq<Bytes>) returns (r: Bytes)
    ensures r == DerSequence(children)
  {
    var body := ConcatParts(children);
    r := Tlv(SEQUENCE, body);
  }

  // ---------- INTEGER ----------

  // The base-256 digits of n, none for zero.
  function Magnitude(n: nat): Bytes {
    if n == 0 then [] else Magnitude(n / 256) + [n % 256]
  }

  function IntegerBody(n: nat): Bytes {
    var m := Magnitude(n);
    if n == 0 then [0] else if m[0] >= 0x80 then [0] + m else m
  }

  lemma {:induction false} MagnitudeMeans(n: nat)
    ensures BigEndian(Magnitude(n)) == n
    ensures n > 0 ==> Magnitude(n) != [] && Magnitude(n)[0] > 0
  {
    if n > 0 {
      MagnitudeMeans(n / 256);
      BigEndianPush(Magnitude(n / 256), n % 256);
    }
  }

  lemma {:induction false} MagnitudeIsOnly(m: Bytes)
    requires m == [] || m[0] > 0
    ensures Magnitude(BigEndian(m)) == m
    ensures m != [] ==> BigEndian(m) > 0
    decreases |m|
  {
    if m != [] {
      var front := m[..|m| - 1];
      MagnitudeIsOnly(front);
      assert m == front + [m[|m| - 1]];
      assert BigEndian(m) / 256 == BigEndian(front);
    }
  }

  // Section 8.3: a non-negative two's-complement integer in as few octets as possible.
  predicate IsMinimal(b: Bytes) {
    b != [] && b[0] < 0x80 && (|b| > 1 && b[0] == 0 ==> b[1] >= 0x80)
  }

  // The emitted body is the one minimal encoding of the number.
  lemma IntegerIsMinimal(n: nat, b: Bytes)
    ensures IsMinimal(b) && BigEndian(b) == n <==> b == IntegerBody(n)
  {
    MagnitudeMeans(n);
    var m := Magnitude(n);
    BigEndianZero(m);
    BigEndianZero([]);
    assert [0] + [] == [0];
    if IsMinimal(b) && BigEndian(b) == n {
      if b[0] == 0 {
        BigEndianZero(b[1..]);
        assert b == [0] + b[1..];
        MagnitudeIsOnly(b[1..]);
      } else {
        MagnitudeIsOnly(b);
      }
    }
  }

  function DerInteger(n: int): Result<Bytes, DerError> {
    if n < 0 || n >= INT32 then Err(IntegerOutOfRange) else Ok(TlvBytes(INTEGER, IntegerBody(n)))
  }

  method Integer(n: int) returns (r: Result<Bytes, DerError>)
    ensures r == DerInteger(n)
  {
    if n < 0 || n >= INT32 {
      return Err(IntegerOutOfRange);
    }
    var bytes: Bytes := [];
    var v := n;
    if v == 0 {
      bytes := [0];
    } else {
      while v > 0
        invariant 0 <= v <= n
        invariant Magnitude(n) == Magnitude(v) + bytes
        invariant v == 0 ==> bytes != []
      {
        assert Magnitude(v / 256) + [v % 256] + bytes == Magnitude(v / 256) + ([v % 256] + bytes);
        bytes := [v % 256] + bytes;
        v := v / 256;
      }
      assert Magnitude(n) == bytes;
      if bytes[0] >= 0x80 {
        bytes := [0] + bytes;
      }
    }
    var t := Tlv(INTEGER, bytes);
    return Ok(t);
  }


  function UintOf(b: Bytes): Result<nat, DerError> {
    if BigEndian(b) <= MAX_SAFE then Ok(BigEndian(b)) else Err(TokenMalformed)
  }

  method BufToUint(b: Bytes) returns (r: Result<nat, DerError>)
    ensures r == UintOf(b)
  {
    var v: nat := 0;
    for i := 0 to |b|
      invariant v == BigEndian(b[..i])
    {
      BigEndianPush(b[..i], b[i]);
      assert b[..i + 1] == b[..i] + [b[i]];
      v := v * 256 + b[i];
    }
    assert b[..|b|] == b;
    if v > MAX_SAFE {
      return Err(TokenMalformed);
    }
    return Ok(v);
  }

  // ---------- OBJECT IDENTIFIER ----------

  // Base-128 digits, all with the continuation bit.
  function Continued(v: nat): Bytes {
    if v == 0 then [] else Continued(v / 128) + [v % 128 + 128]
  }

  function Subidentifier(v: nat): Bytes {
    Continued(v / 128) + [v % 128]
  }

  // Right shifts work on 32 unsigned bits.
  function Subidentifiers(parts: seq<nat>): Bytes {
    if parts == [] then [] else Subidentifier(parts[0] % UINT32) + Subidentifiers(parts[1..])
  }

  // The parsed components of a dotted name.
  function OidBody(parts: seq<int>): Result<Bytes, DerError> {
    if |parts| < 2 || exists i :: 0 <= i < |parts| && parts[i] < 0 then Err(BadOid)
    else Ok([(parts[0] * 40 + parts[1]) % 256] + Subidentifiers(parts[2..]))
  }

  // Base-128 digits without continuation bits.
  function Digits(v: nat): seq<nat> {
    if v == 0 then [] else Digits(v / 128) + [v % 128]
  }

  lemma {:induction false} ContinuedDigits(v: nat)
    ensures |Continued(v)| == |Digits(v)|
    ensures forall i :: 0 <= i < |Digits(v)| ==> Digits(v)[i] < 128 && Continued(v)[i] == Digits(v)[i] + 128
  {
    if v > 0 {
      ContinuedDigits(v / 128);
    }
  }

  // The do-while loop over one component.
  method Base128(n: nat) returns (digits: seq<nat>)
    ensures digits == Digits(n % UINT32 / 128) + [n % UINT32 % 128]
  {
    digits := [n % 128];
    var v: nat := n % UINT32 / 128;
    ghost var u := v;
    ghost var low: seq<nat> := [n % 128];
    assert n % UINT32 % 128 == n % 128;
    while v > 0
      invariant Digits(u) + low == Digits(v) + digits
    {
      assert Digits(v / 128) + [v % 128] + digits == Digits(v / 128) + ([v % 128] + digits);
      digits := [v % 128] + digits;
      v := v / 128;
    }
    assert Digits(v) + digits == digits;
  }

  // Every digit but the last gets the continuation bit.
  method SetContinuation(digits: seq<nat>, ghost v: nat) returns (base128: seq<nat>)
    requires digits == Digits(v / 128) + [v % 128]
    ensures base128 == Subidentifier(v)
  {
    ContinuedDigits(v / 128);
    base128 := digits;
    for i := 0 to |digits| - 1
      invariant |base128| == |digits|
      invariant forall k :: 0 <= k < i ==> base128[k] == digits[k] + 128
      invariant forall k :: i <= k < |digits| ==> base128[k] == digits[k]
    {
      base128 := base128[i := base128[i] + 128];
    }
  }

  // Uint8Array.from truncates.
  function Truncate(body: seq<nat>): (b: Bytes)
    ensures |b| == |body|
  {
    seq(|body|, i requires 0 <= i < |body| => body[i] % 256)
  }

  lemma {:induction false} SubidentifiersPush(parts: seq<nat>, k: nat)
    requires k < |parts|
    ensures Subidentifiers(parts[..k + 1]) == Subidentifiers(parts[..k]) + Subidentifier(parts[k] % UINT32)
  {
    var p := parts[..k + 1];
    if k == 0 {
      assert p[1..] == [] && parts[..0] == [];
    } else {
      SubidentifiersPush(parts[1..], k - 1);
      assert p[1..] == parts[1..][..k];
      assert parts[..k][1..] == parts[1..][..k - 1];
    }
  }

  method WriteOidBody(parts: seq<int>) returns (r: Result<Bytes, DerError>)
    ensures r == OidBody(parts)
  {
    if |parts| < 2 || exists i :: 0 <= i < |parts| && parts[i] < 0 {
      return Err(BadOid);
    }
    var rest: seq<nat> := seq(|parts| - 2, i requires 0 <= i < |parts| - 2 => parts[i + 2]);
    assert rest == parts[2..];
    var head := parts[0] * 40 + parts[1];
    var tail := WriteSubidentifiers(rest);
    var body := [head] + tail;
    assert Truncate(body) == [head % 256] + Subidentifiers(rest);
    return Ok(Truncate(body));
  }

  lemma NoSubidentifiers()
    ensures Subidentifiers([]) == []
  {
  }

  // The loop of oidBody.
  method WriteSubidentifiers(rest: seq<nat>) returns (body: seq<nat>)
    ensures body == Subidentifiers(rest)
  {
    hide Subidentifier, Subidentifiers;
    body := [];
    NoSubidentifiers();
    assert rest[..0] == [];
    for i := 0 to |rest|
      invariant body == Subidentifiers(rest[..i])
    {
      var digits := Base128(rest[i]);
      var base128 := SetContinuation(digits, rest[i] % UINT32);
      SubidentifiersPush(rest, i);
      body := body + base128;
    }
    assert rest[..|rest|] == rest;
  }

  // ---------- parsing ----------

  datatype ParsedTlv = ParsedTlv(tag: Byte, content: Bytes, total: int)

  datatype Header = Header(tag: Byte, start: nat, len: int)

  // `(len << 8) | octet`, n times.
  function ReadLength(buf: Bytes, at: nat, n: nat, len: int): Result<int, DerError>
    decreases n
  {
    if n == 0 then Ok(len)
    else if at >= |buf| then Err(TokenMalformed)
    else ReadLength(buf, at + 1, n - 1, Wrap32(len * 256) + buf[at])
  }

  function ReadHeader(buf: Bytes, offset: nat): Result<Header, DerError> {
    if offset + 1 >= |buf| then Err(TokenMalformed)
    else
      var first := buf[offset + 1];
      if first < 0x80 then Ok(Header(buf[offset], offset + 2, first))
      else
        var n := first - 0x80;
        if n == 0 || n > 4 then Err(TokenMalformed)
        else
          var len :- ReadLength(buf, offset + 2, n, 0);
          Ok(Header(buf[offset], offset + 2 + n, len))
  }

  // Uint8Array.prototype.slice: negative ends count from the end.
  function Slice(buf: Bytes, start: nat, end: int): Bytes {
    var to := if end < 0 then |buf| + end else if end > |buf| then |buf| else end;
    if start >= to then [] else buf[start..to]
  }

  // A negative offset reads no tag, which every caller rejects.
  function ParseAt(buf: Bytes, offset: int): Result<ParsedTlv, DerError> {
    if offset < 0 then Err(TokenMalformed)
    else
      var h :- ReadHeader(buf, offset);
      if h.start + h.len > |buf| then Err(TokenMalformed)
      else Ok(ParsedTlv(h.tag, Slice(buf, h.start, h.start + h.len), h.start + h.len - offset))
  }

  function Expect(buf: Bytes, offset: int, tag: Byte): Result<ParsedTlv, DerError> {
    var t :- ParseAt(buf, offset);
    if t.tag == tag then Ok(t) else Err(TokenMalformed)
  }

  method ParseLength(buf: Bytes, lp: nat, n: nat) returns (r: Result<int, DerError>)
    ensures r == ReadLength(buf, lp, n, 0)
  {
    var len := 0;
    for i := 0 to n
      invariant ReadLength(buf, lp, n, 0) == ReadLength(buf, lp + i, n - i, len)
    {
      if lp + i >= |buf| {
        return Err(TokenMalformed);
      }
      len := Wrap32(len * 256) + buf[lp + i];
    }
    return Ok(len);
  }

  method ParseTlv(buf: Bytes, offset: int) returns (r: Result<ParsedTlv, DerError>)
    ensures r == ParseAt(buf, offset)
  {
    if offset >= |buf| || offset < 0 {
      return Err(TokenMalformed);
    }
    var tag := buf[offset];
    var lp := offset + 1;
    if lp >= |buf| {
      return Err(TokenMalformed);
    }
    var first := buf[lp];
    lp := lp + 1;
    var len := first as int;
    if first >= 0x80 {
      var n := first - 0x80;
      if n == 0 || n > 4 {
        return Err(TokenMalformed);
      }
      len :- ParseLength(buf, lp, n);
      lp := lp + n;
    }
    if lp + len > |buf| {
      return Err(TokenMalformed);
    }
    return Ok(ParsedTlv(tag, Slice(buf, lp, lp + len), lp + len - offset));
  }
}
