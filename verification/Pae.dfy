// Pre-Authentication Encoding (PASETO "Common", section "PAE Definition"), as LIC2 computes it.
module Pae {
  import opened Base

  const TOP := 0x8000_0000_0000_0000

  // The low n octets, least significant first.
  function LittleEndian(v: nat, n: nat): (b: Bytes)
    ensures |b| == n
  {
    if n == 0 then [] else [v % 256] + LittleEndian(v / 256, n - 1)
  }

  // Eight octets with the most significant bit cleared.
  function Le64(n: nat): (b: Bytes)
    ensures |b| == 8
  {
    var b := LittleEndian(n, 8);
    b[7 := b[7] % 128]
  }

  function Piece(p: Bytes): Bytes {
    Le64(|p|) + p
  }

  function Pieces(ps: seq<Bytes>): Bytes {
    if ps == [] then [] else Piece(ps[0]) + Pieces(ps[1..])
  }

  function Encoding(ps: seq<Bytes>): Bytes {
    Le64(|ps|) + Pieces(ps)
  }

  // ---------- the loops ----------

  lemma {:induction false} LittleEndianAt(v: nat, n: nat, i: nat)
    requires i < n
    ensures LittleEndian(v, n)[i] == Shifted(v, i) % 256
  {
    if i > 0 {
      LittleEndianAt(v / 256, n - 1, i - 1);
    }
  }

  function Shifted(v: nat, i: nat): nat {
    if i == 0 then v else Shifted(v / 256, i - 1)
  }

  lemma {:induction false} ShiftedStep(v: nat, i: nat)
    ensures Shifted(v, i + 1) == Shifted(v, i) / 256
  {
    if i > 0 {
      ShiftedStep(v / 256, i - 1);
    }
  }

  method WriteLe64(n: nat) returns (out: array<Byte>)
    ensures fresh(out) && out[..] == Le64(n)
  {
    out := new Byte[8];
    var v := n;
    for i := 0 to 8
      invariant v == Shifted(n, i)
      invariant forall k :: 0 <= k < i ==> out[k] == Shifted(n, k) % 256
    {
      out[i] := v % 256;
      ShiftedStep(n, i);
      v := v / 256;
    }
    forall k | 0 <= k < 8 ensures out[k] == LittleEndian(n, 8)[k] {
      LittleEndianAt(n, 8, k);
    }
    out[7] := out[7] % 128;
  }

  lemma {:induction false} PiecesPush(ps: seq<Bytes>, k: nat)
    requires k < |ps|
    ensures Pieces(ps[..k + 1]) == Pieces(ps[..k]) + Piece(ps[k])
  {
    if k == 0 {
      assert ps[..1][1..] == [] && ps[..0] == [];
      assert Pieces(ps[..1]) == Piece(ps[0]) + Pieces([]);
    } else {
      PiecesPush(ps[1..], k - 1);
      assert ps[..k + 1][1..] == ps[1..][..k];
      assert ps[..k][1..] == ps[1..][..k - 1];
      AppendAssoc(Piece(ps[0]), Pieces(ps[1..][..k - 1]), Piece(ps[k]));
    }
  }

  lemma {:induction false} PiecesPrefix(ps: seq<Bytes>, k: nat)
    requires k <= |ps|
    ensures |Pieces(ps[..k])| <= |Pieces(ps)|
    decreases |ps| - k
  {
    if k < |ps| {
      PiecesPush(ps, k);
      PiecesPrefix(ps, k + 1);
    } else {
      assert ps[..k] == ps;
    }
  }

  lemma NoPieces()
    ensures Pieces([]) == []
  {
  }

  method Encode(ps: seq<Bytes>) returns (r: Bytes)
    ensures r == Encoding(ps)
  {
    hide Le64, Pieces;
    NoPieces();
    assert ps[..0] == [];
    var total := 8;
    for i := 0 to |ps|
      invariant total == 8 + |Pieces(ps[..i])|
    {
      PiecesPush(ps, i);
      total := total + (8 + |ps[i]|);
    }
    assert ps[..|ps|] == ps;
    var out := new Byte[total];
    var count := WriteLe64(|ps|);
    Set(out, count[..], 0);
    var off := 8;
    for i := 0 to |ps|
      invariant off == 8 + |Pieces(ps[..i])| <= out.Length == total
      invariant total == 8 + |Pieces(ps)|
      invariant out[..off] == Le64(|ps|) + Pieces(ps[..i])
    {
      PiecesPush(ps, i);
      PiecesPrefix(ps, i + 1);
      ghost var done := out[..off];
      var len := WriteLe64(|ps[i]|);
      Set(out, len[..], off);
      off := off + 8;
      assert out[..off] == done + Le64(|ps[i]|);
      Set(out, ps[i], off);
      off := off + |ps[i]|;
      assert out[..off] == done + Piece(ps[i]);
    }
    assert ps[..|ps|] == ps;
    return out[..];
  }

  // ---------- what it determines ----------

  function Value(b: Bytes): nat {
    if b == [] then 0 else b[0] + 256 * Value(b[1..])
  }

  // The octets and what was shifted out make up the number.
  lemma OctetsOf(v: nat)
    ensures
      var b := LittleEndian(v, 8);
      v == Low7(b) + 0x100_0000_0000_0000 * (b[7] as nat) + 0x1_0000_0000_0000_0000 * Shifted(v, 8)
  {
    LittleEndianAt(v, 8, 0);
    LittleEndianAt(v, 8, 1);
    LittleEndianAt(v, 8, 2);
    LittleEndianAt(v, 8, 3);
    LittleEndianAt(v, 8, 4);
    LittleEndianAt(v, 8, 5);
    LittleEndianAt(v, 8, 6);
    LittleEndianAt(v, 8, 7);
    ShiftedSteps(v);
    hide LittleEndian, Shifted;
    DivMod(Shifted(v, 0));
    DivMod(Shifted(v, 1));
    DivMod(Shifted(v, 2));
    DivMod(Shifted(v, 3));
    DivMod(Shifted(v, 4));
    DivMod(Shifted(v, 5));
    DivMod(Shifted(v, 6));
    DivMod(Shifted(v, 7));
  }

  lemma DivMod(v: nat)
    ensures v == v % 256 + 256 * (v / 256)
  {
  }

  lemma ShiftedSteps(v: nat)
    ensures Shifted(v, 0) == v
    ensures forall i :: 0 <= i < 8 ==> Shifted(v, i + 1) == Shifted(v, i) / 256
  {
    forall i | 0 <= i < 8 ensures Shifted(v, i + 1) == Shifted(v, i) / 256 {
      ShiftedStep(v, i);
    }
  }

  // Two lengths share an encoding exactly when they differ by a multiple of 2^63: the cleared
  // bit matters from there on.
  lemma Le64Exactly(n: nat, k: nat)
    ensures Le64(n) == Le64(k) <==> n % TOP == k % TOP
  {
    Le64Value(n);
    Le64Value(k);
    if n % TOP == k % TOP {
      Le64OfLow(n);
      Le64OfLow(k);
    }
  }

  lemma ValueSplit(b: Bytes)
    requires |b| == 8
    ensures Value(b) == Low7(b) + 0x100_0000_0000_0000 * (b[7] as nat)
  {
    assert b[1..][1..] == b[2..] && b[2..][1..] == b[3..] && b[3..][1..] == b[4..] && b[4..][1..] == b[5..];
    assert b[5..][1..] == b[6..] && b[6..][1..] == b[7..] && b[7..][1..] == [];
    assert Value(b[7..]) == b[7];
    assert Value(b[6..]) == b[6] + 256 * Value(b[7..]);
    assert Value(b[5..]) == b[5] + 256 * Value(b[6..]);
    assert Value(b[4..]) == b[4] + 256 * Value(b[5..]);
    assert Value(b[3..]) == b[3] + 256 * Value(b[4..]);
    assert Value(b[2..]) == b[2] + 256 * Value(b[3..]);
    assert Value(b[1..]) == b[1] + 256 * Value(b[2..]);
  }

  function Low7(b: Bytes): nat
    requires |b| == 8
    ensures Low7(b) < 0x100_0000_0000_0000
  {
    b[0] as nat + 256 * (b[1] as nat + 256 * (b[2] as nat + 256 * (b[3] as nat + 256 * (b[4] as nat
      + 256 * (b[5] as nat + 256 * (b[6] as nat))))))
  }

  lemma Le64Value(n: nat)
    ensures Value(Le64(n)) == n % TOP
  {
    var b := LittleEndian(n, 8);
    OctetsOf(n);
    ValueSplit(Le64(n));
    hide LittleEndian, Value, Shifted;
    assert Low7(Le64(n)) == Low7(b);
    TopBit(Low7(b), b[7], Shifted(n, 8), n);
  }

  lemma TopBit(low: nat, top: Byte, high: nat, n: nat)
    requires low < 0x100_0000_0000_0000
    requires n == low + 0x100_0000_0000_0000 * (top as nat) + 0x1_0000_0000_0000_0000 * high
    ensures n % TOP == low + 0x100_0000_0000_0000 * (top as nat % 128)
  {
    var t: nat := if top >= 128 then 1 else 0;
    var x: nat := top - 128 * t;
    assert n == TOP * (2 * high + t) + (low + 0x100_0000_0000_0000 * x);
    Remainder(2 * high + t, low + 0x100_0000_0000_0000 * x);
  }

  lemma Remainder(q: nat, r: nat)
    requires r < TOP
    ensures (TOP * q + r) % TOP == r
  {
  }

  lemma Le64OfLow(n: nat)
    ensures Le64(n) == Le64(n % TOP)
  {
    hide Le64, Value;
    Le64Value(n);
    Le64Value(n % TOP);
    ValueInjective(Le64(n), Le64(n % TOP));
  }

  lemma {:induction false} ValueInjective(a: Bytes, b: Bytes)
    requires |a| == |b| && Value(a) == Value(b)
    ensures a == b
    decreases |a|
  {
    if a != [] {
      ValueInjective(a[1..], b[1..]);
      assert a == [a[0]] + a[1..] && b == [b[0]] + b[1..];
    }
  }

  ghost predicate Short(ps: seq<Bytes>) {
    |ps| < TOP && forall i :: 0 <= i < |ps| ==> |ps[i]| < TOP
  }

  // Different lists of pieces have different encodings.
  lemma EncodingInjective(ps: seq<Bytes>, qs: seq<Bytes>)
    requires Short(ps) && Short(qs) && Encoding(ps) == Encoding(qs)
    ensures ps == qs
  {
    hide Le64, Pieces;
    assert Encoding(ps)[..8] == Le64(|ps|) && Encoding(qs)[..8] == Le64(|qs|);
    Le64Exactly(|ps|, |qs|);
    assert Encoding(ps)[8..] == Pieces(ps) && Encoding(qs)[8..] == Pieces(qs);
    PiecesInjective(ps, qs);
  }

  lemma {:induction false} PiecesInjective(ps: seq<Bytes>, qs: seq<Bytes>)
    requires |ps| == |qs| && Short(ps) && Short(qs) && Pieces(ps) == Pieces(qs)
    ensures ps == qs
    decreases |ps|
  {
    hide Le64;
    if ps != [] {
      FirstPiece(ps[0], Pieces(ps[1..]), qs[0], Pieces(qs[1..]));
      PiecesInjective(ps[1..], qs[1..]);
      assert ps == [ps[0]] + ps[1..] && qs == [qs[0]] + qs[1..];
    }
  }

  lemma FirstPiece(p: Bytes, a: Bytes, q: Bytes, b: Bytes)
    requires |p| < TOP && |q| < TOP && Piece(p) + a == Piece(q) + b
    ensures p == q && a == b
  {
    hide Le64;
    var x, y := Piece(p) + a, Piece(q) + b;
    assert x[..8] == Le64(|p|) && y[..8] == Le64(|q|);
    Le64Exactly(|p|, |q|);
    assert x[8..8 + |p|] == p && y[8..8 + |q|] == q;
    assert x[8 + |p|..] == a && y[8 + |q|..] == b;
  }
}
