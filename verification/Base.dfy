// Types shared by every component of the model.
module Base {

  // One octet.
  type Byte = x: int | 0 <= x < 0x100

  // One UTF-16 code unit: what a TypeScript string is made of. Dafny's own `char`
  // excludes surrogates, so strings of the source are sequences of units.
  type Unit = x: int | 0 <= x < 0x1_0000

  type Bytes = seq<Byte>

  type Text = seq<Unit>

  datatype Option<+T> = None | Some(value: T)

  // A returned value, or the error the source throws or returns.
  datatype Result<+T, +E> = Ok(value: T) | Err(error: E) {
    predicate IsFailure() {
      Err?
    }

    function PropagateFailure<U>(): Result<U, E>
      requires Err?
    {
      Err(error)
    }

    function Extract(): T
      requires Ok?
    {
      value
    }
  }

  // The text of an ASCII literal.
  function Ascii(s: string): (t: Text)
    requires forall i :: 0 <= i < |s| ==> s[i] as int < 0x80
    ensures |t| == |s|
  {
    seq(|s|, i requires 0 <= i < |s| => s[i] as int)
  }

  // JavaScript white space: what \s matches and trim removes.
  predicate IsSpace(c: Unit) {
    || 0x09 <= c <= 0x0d || c == 0x20 || c == 0xa0 || c == 0x1680 || 0x2000 <= c <= 0x200a
    || c == 0x2028 || c == 0x2029 || c == 0x202f || c == 0x205f || c == 0x3000 || c == 0xfeff
  }

  // ---------- numbers ----------

  // The integers a double holds exactly, Number.MAX_SAFE_INTEGER the last.
  const MAX_SAFE := 9007199254740991

  const INT32 := 0x8000_0000
  const UINT32 := 0x1_0000_0000

  // The signed 32-bit value of a shift.
  function Wrap32(x: int): int {
    (x + INT32) % UINT32 - INT32
  }

  // The value of octets read most significant first.
  function BigEndian(b: Bytes): nat {
    if b == [] then 0 else BigEndian(b[..|b| - 1]) * 256 + b[|b| - 1]
  }

  lemma BigEndianPush(b: Bytes, x: Byte)
    ensures BigEndian(b + [x]) == BigEndian(b) * 256 + x
  {
    assert (b + [x])[..|b|] == b;
  }

  // ---------- sequences ----------

  // Dropping twice is dropping once: cursors walk `text[i..]`.
  lemma DropDrop<T>(s: seq<T>, i: nat, k: nat)
    requires i + k <= |s|
    ensures s[i..][k..] == s[i + k..]
  {
  }

  lemma AppendAssoc<T>(a: seq<T>, b: seq<T>, c: seq<T>)
    ensures (a + b) + c == a + (b + c)
  {
  }

  // Uint8Array.prototype.set.
  method Set(out: array<Byte>, part: Bytes, at: nat)
    requires at + |part| <= out.Length
    modifies out
    ensures out[..] == old(out[..at]) + part + old(out[at + |part|..])
  {
    forall i | 0 <= i < |part| {
      out[at + i] := part[i];
    }
  }
}
