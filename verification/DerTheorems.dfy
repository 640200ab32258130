// What the DER codec promises: object identifiers decode to their components under an exact
// condition, and a parsed TLV is the emitted one exactly for contents below 2^31 octets.
module DerTheorems {
  import opened Base
  import opened Der

  // ---------- object identifiers, by X.690 section 8.19 ----------

  // Reads a subidentifier whose earlier digits had the value acc.
  function ReadSub(acc: nat, b: Bytes): Option<(nat, Bytes)>
    ensures ReadSub(acc, b).Some? ==> |ReadSub(acc, b).value.1| < |b|
    decreases |b|
  {
    if b == [] then None
    else if b[0] < 0x80 then Some((acc * 128 + b[0], b[1..]))
    else ReadSub(acc * 128 + (b[0] - 0x80), b[1..])
  }

  function ReadSubs(b: Bytes): Option<seq<nat>>
    decreases |b|
  {
    if b == [] then Some([])
    else if b[0] == 0x80 then None
    else
      match ReadSub(0, b)
      case None => None
      case Some((v, rest)) =>
        match ReadSubs(rest)
        case None => None
        case Some(vs) => Some([v] + vs)
  }

  // The first subidentifier holds two components.
  function ReadOid(b: Bytes): Option<seq<nat>> {
    match ReadSubs(b)
    case None => None
    case Some(vs) =>
      if vs == [] then None
      else
        var first := if vs[0] < 80 then vs[0] / 40 else 2;
        Some([first, vs[0] - 40 * first] + vs[1..])
  }

  lemma {:induction false} ReadContinued(v: nat, t: Bytes)
    ensures ReadSub(0, Continued(v) + t) == ReadSub(v, t)
    ensures v > 0 ==> Continued(v) != [] && Continued(v)[0] > 0x80
    decreases v
  {
    if v == 0 {
      assert Continued(v) + t == t;
    } else {
      var d: Byte := v % 128 + 128;
      ReadContinued(v / 128, [d] + t);
      assert Continued(v) + t == Continued(v / 128) + ([d] + t);
      assert ([d] + t)[1..] == t;
    }
  }

  lemma ReadSubidentifier(v: nat, t: Bytes)
    ensures ReadSub(0, Subidentifier(v) + t) == Some((v, t))
    ensures Subidentifier(v) != [] && Subidentifier(v)[0] != 0x80
  {
    var d: Byte := v % 128;
    ReadContinued(v / 128, [d] + t);
    assert Subidentifier(v) + t == Continued(v / 128) + ([d] + t);
    assert ([d] + t)[1..] == t;
  }

  lemma {:induction false} ReadSubidentifiers(parts: seq<nat>)
    ensures ReadSubs(Subidentifiers(parts)) == Some(Lowered(parts))
    decreases |parts|
  {
    if parts != [] {
      var v := parts[0] % UINT32;
      var rest := Subidentifiers(parts[1..]);
      ReadSubidentifier(v, rest);
      ReadSubidentifiers(parts[1..]);
      assert (Subidentifier(v) + rest)[0] == Subidentifier(v)[0];
    }
  }

  function Lowered(parts: seq<nat>): seq<nat> {
    if parts == [] then [] else [parts[0] % UINT32] + Lowered(parts[1..])
  }

  lemma {:induction false} LoweredSame(parts: seq<nat>)
    ensures Lowered(parts) == parts <==> forall i :: 0 <= i < |parts| ==> parts[i] < UINT32
    ensures |Lowered(parts)| == |parts|
    decreases |parts|
  {
    if parts != [] {
      LoweredSame(parts[1..]);
      assert parts == [parts[0]] + parts[1..];
      if Lowered(parts) == parts {
        assert Lowered(parts)[0] == parts[0];
        assert Lowered(parts)[1..] == parts[1..];
        forall i | 0 <= i < |parts| ensures parts[i] < UINT32 {
          assert i > 0 ==> parts[i] == parts[1..][i - 1];
        }
      }
    }
  }

  // The components the emitter can encode: X.660 bounds the second below 40 under the first
  // two roots, and the code writes the first two into one octet without continuation bits.
  predicate Encodable(parts: seq<int>) {
    && |parts| >= 2
    && 0 <= parts[0] <= 2 && 0 <= parts[1]
    && (parts[0] < 2 ==> parts[1] < 40)
    && parts[0] * 40 + parts[1] < 128
    && (forall i :: 2 <= i < |parts| ==> 0 <= parts[i] < UINT32)
  }

  lemma OidIsExact(parts: seq<int>)
    ensures (OidBody(parts).Ok? && ReadOid(OidBody(parts).value) == Some(parts)) <==> Encodable(parts)
  {
    hide Subidentifier, Subidentifiers, ReadSub, Lowered;
    if OidBody(parts).Ok? {
      var head := parts[0] * 40 + parts[1];
      var rest: seq<nat> := parts[2..];
      var b: Byte := head % 256;
      var tail := Subidentifiers(rest);
      var body := OidBody(parts).value;
      assert body == [b] + tail && body[1..] == tail;
      ReadSubidentifiers(rest);
      LoweredSame(rest);
      assert forall i :: 0 <= i < |rest| ==> rest[i] == parts[i + 2];
      assert parts == [parts[0], parts[1]] + rest;
      if b < 128 {
        ReadHead(b, rest);
        OidHead(parts, b, rest);
      } else {
        OidContinues(rest, b);
      }
    }
  }

  lemma ReadHead(b: Byte, rest: seq<nat>)
    requires b < 128
    ensures ReadSubs([b] + Subidentifiers(rest)) == Some([b] + Lowered(rest))
  {
    ReadSubidentifiers(rest);
    assert ([b] + Subidentifiers(rest))[1..] == Subidentifiers(rest);
  }

  // A first octet below 128 stands alone.
  lemma OidHead(parts: seq<int>, b: Byte, rest: seq<nat>)
    requires |parts| >= 2 && (forall i :: 0 <= i < |parts| ==> parts[i] >= 0)
    requires parts[2..] == rest
    requires b == (parts[0] * 40 + parts[1]) % 256 && b < 128
    requires Lowered(rest) == rest <==> forall i :: 0 <= i < |rest| ==> rest[i] < UINT32
    ensures
      var first: nat := if b < 80 then b / 40 else 2;
      [first, b - 40 * first] + Lowered(rest) == parts <==> Encodable(parts)
  {
    hide Lowered;
    var first: nat := if b < 80 then b / 40 else 2;
    HeadDigits(parts[0], parts[1], b);
    TwoAndRest(first, b - 40 * first, Lowered(rest), parts);
    TailBounds(parts);
  }

  lemma TwoAndRest(x: int, y: int, rest: seq<int>, parts: seq<int>)
    requires |parts| >= 2
    ensures [x, y] + rest == parts <==> x == parts[0] && y == parts[1] && rest == parts[2..]
  {
    var read := [x, y] + rest;
    assert read[2..] == rest;
    assert parts == [parts[0], parts[1]] + parts[2..];
    if read == parts {
      assert read[0] == x && read[1] == y;
    }
  }

  lemma TailBounds(parts: seq<int>)
    requires |parts| >= 2
    ensures (forall i :: 2 <= i < |parts| ==> 0 <= parts[i] < UINT32)
      <==> (forall i :: 0 <= i < |parts[2..]| ==> 0 <= parts[2..][i] < UINT32)
  {
    assert forall i :: 2 <= i < |parts| ==> parts[i] == parts[2..][i - 2];
  }

  lemma HeadDigits(x: nat, y: nat, b: Byte)
    requires b == (x * 40 + y) % 256 && b < 128
    ensures
      var first: nat := if b < 80 then b / 40 else 2;
      first == x && b - 40 * first == y <==> x <= 2 && (x < 2 ==> y < 40) && x * 40 + y < 128
  {
  }

  // From 128 on it swallows the next component, so fewer components come back.
  lemma OidContinues(rest: seq<nat>, b: Byte)
    requires b >= 128
    ensures
      var r := ReadSubs([b] + Subidentifiers(rest));
      r.Some? ==> |r.value| == |rest|
  {
    var tail := Subidentifiers(rest);
    assert ([b] + tail)[1..] == tail;
    if rest != [] {
      var v := rest[0] % UINT32;
      var more := Subidentifiers(rest[1..]);
      ReadMore(b - 128, v, more);
      ReadSubidentifiers(rest[1..]);
      LoweredSame(rest[1..]);
    }
  }

  lemma ReadMore(acc: nat, v: nat, t: Bytes)
    ensures ReadSub(acc, Subidentifier(v) + t).Some? && ReadSub(acc, Subidentifier(v) + t).value.1 == t
  {
    var d: Byte := v % 128;
    ReadMoreContinued(acc, v / 128, [d] + t);
    assert Subidentifier(v) + t == Continued(v / 128) + ([d] + t);
    assert ([d] + t)[1..] == t;
  }

  lemma ReadMoreContinued(acc: nat, v: nat, t: Bytes)
    requires t != [] && t[0] < 0x80
    ensures ReadSub(acc, Continued(v) + t).Some? && ReadSub(acc, Continued(v) + t).value.1 == t[1..]
  {
    ContinuedDigits(v);
    SkipContinued(acc, Continued(v), t);
  }

  lemma {:induction false} SkipContinued(acc: nat, c: Bytes, t: Bytes)
    requires forall i :: 0 <= i < |c| ==> c[i] >= 0x80
    requires t != [] && t[0] < 0x80
    ensures ReadSub(acc, c + t).Some? && ReadSub(acc, c + t).value.1 == t[1..]
    decreases |c|
  {
    if c == [] {
      assert c + t == t;
    } else {
      assert (c + t)[1..] == c[1..] + t;
      SkipContinued(acc * 128 + (c[0] - 0x80), c[1..], t);
    }
  }

  // ---------- TLVs ----------

  lemma WrapUnique(x: int, w: int, j: int)
    requires x == w + 0x1_0000_0000 * j && -0x8000_0000 <= w < 0x8000_0000
    ensures Wrap32(x) == w
  {
  }

  lemma WrapShift(y: int, b: Byte)
    ensures Wrap32(Wrap32(y) * 256) + b == Wrap32(y * 256 + b)
  {
    var k := (y + 0x8000_0000) / 0x1_0000_0000;
    assert Wrap32(y) == y - 0x1_0000_0000 * k;
    var z := Wrap32(y) * 256;
    var j := (z + 0x8000_0000) / 0x1_0000_0000;
    var w := Wrap32(z);
    assert w == z - 0x1_0000_0000 * j && w % 256 == 0;
    WrapUnique(y * 256 + b, w + b, 256 * k + j);
  }

  lemma WrapMultiple(z: int, k: int)
    ensures Wrap32(z - k * UINT32) == Wrap32(z)
  {
    var j := (z + INT32) / UINT32;
    assert z - k * UINT32 + INT32 == (j - k) * UINT32 + (z + INT32) % UINT32;
  }

  // The parser's shifts compute the length octets' value modulo 2^32, read as signed.
  lemma {:induction false} ReadLengthMeans(buf: Bytes, from: nat, at: nat, n: nat)
    requires from <= at && at + n <= |buf|
    ensures ReadLength(buf, at, n, Wrap32(BigEndian(buf[from..at]))) == Ok(Wrap32(BigEndian(buf[from..at + n])))
    decreases n
  {
    hide Wrap32, BigEndian;
    if n == 0 {
      assert buf[from..at + n] == buf[from..at];
    } else {
      WrapShift(BigEndian(buf[from..at]), buf[at]);
      BigEndianPush(buf[from..at], buf[at]);
      assert buf[from..at] + [buf[at]] == buf[from..at + 1];
      ReadLengthMeans(buf, from, at + 1, n - 1);
    }
  }

  lemma LengthOctets(n: nat)
    requires n >= 0x80
    ensures var e := EncodeLen(n);
      e[0] == 0x80 + (|e| - 1) && 2 <= |e| <= 5 && BigEndian(e[1..]) == n % UINT32
  {
    var e := EncodeLen(n);
    LengthIsExact(n);
    if n >= UINT32 {
      BigEndianUpTo4(e[1..]);
      LowQuad(n);
    }
  }

  lemma HeaderOfTlv(pre: Bytes, tag: Byte, c: Bytes, rest: Bytes)
    ensures ReadHeader(pre + TlvBytes(tag, c) + rest, |pre|)
      == Ok(Header(tag, |pre| + 1 + |EncodeLen(|c|)|, Wrap32(|c|)))
  {
    var e := EncodeLen(|c|);
    var buf := pre + TlvBytes(tag, c) + rest;
    var at := |pre| + 1;
    assert buf[|pre|] == tag && buf[at] == e[0];
    if |c| >= 0x80 {
      LengthOctets(|c|);
      var n := |e| - 1;
      assert buf[at + 1..at + 1 + n] == e[1..];
      ReadLengthMeans(buf, at + 1, at + 1, n);
      assert buf[at + 1..at + 1] == [];
      WrapMultiple(|c|, |c| / UINT32);
      assert |c| % UINT32 == |c| - |c| / UINT32 * UINT32;
      hide BigEndian, ReadLength, EncodeLen;
    }
  }

  // The parser returns what the emitter wrapped, at any place in a buffer, exactly when the
  // content is shorter than 2^31 octets.
  lemma ParseOfTlv(pre: Bytes, tag: Byte, c: Bytes, rest: Bytes)
    ensures ParseAt(pre + TlvBytes(tag, c) + rest, |pre|) == Ok(ParsedTlv(tag, c, |TlvBytes(tag, c)|))
      <==> |c| < INT32
  {
    HeaderOfTlv(pre, tag, c, rest);
    hide ReadHeader, EncodeLen;
    var buf := pre + TlvBytes(tag, c) + rest;
    var start := |pre| + 1 + |EncodeLen(|c|)|;
    assert buf[start..start + |c|] == c;
  }
}
