// The canonical JSON printer of typescript/src/canonical-json.ts: the text each value is
// given, and the writer that produces it by pushing onto one shared output.
module CanonicalJson {
  import opened Base
  import opened JsonValue
  import Utf16Order

  datatype CanonError =
    | InvalidTopLevel
    | InvalidType
    | InvalidNumber
    | InvalidUTF8

  type Printed = Result<Text, CanonError>

  const QUOTE: Text := [0x22]
  const COMMA: Text := [0x2c]
  const COLON: Text := [0x3a]
  const OPEN_ARRAY: Text := [0x5b]
  const CLOSE_ARRAY: Text := [0x5d]
  const OPEN_OBJECT: Text := [0x7b]
  const CLOSE_OBJECT: Text := [0x7d]

  // ---------- scalars ----------

  function Digits(n: nat): Text {
    if n < 10 then [0x30 + n] else Digits(n / 10) + [0x30 + n % 10]
  }

  // Number.prototype.toString(10) on an integer.
  function Decimal(i: int): Text {
    if i < 0 then [0x2d] + Digits(-i) else Digits(i)
  }

  function PrintNumber(n: Number): Printed {
    if n.Finite? && IsInteger(n.r) && Safe(n.r.Floor) then Ok(Decimal(n.r.Floor))
    else Err(InvalidNumber)
  }

  function HexDigit(d: int): Unit
    requires 0 <= d < 16
  {
    if d < 10 then 0x30 + d else 0x61 + (d - 10)
  }

  function EscapeUnit(c: Unit): Text {
    if c == 0x22 || c == 0x5c then [0x5c, c]
    else if c == 0x08 then [0x5c, 0x62]
    else if c == 0x09 then [0x5c, 0x74]
    else if c == 0x0a then [0x5c, 0x6e]
    else if c == 0x0c then [0x5c, 0x66]
    else if c == 0x0d then [0x5c, 0x72]
    else if c < 0x20 then [0x5c, 0x75, 0x30, 0x30, HexDigit(c / 16), HexDigit(c % 16)]
    else [c]
  }

  function Escape(s: Text): Text {
    if s == [] then [] else EscapeUnit(s[0]) + Escape(s[1..])
  }

  function PrintString(s: Text): Printed {
    if WellFormed(s) then Ok(QUOTE + Escape(s) + QUOTE) else Err(InvalidUTF8)
  }

  // ---------- values ----------

  ghost function PrintValue(v: Json): Printed
    decreases v
  {
    match v
    case Null => Ok(NULL)
    case Bool(b) => Ok(if b then TRUE else FALSE)
    case Num(n) => PrintNumber(n)
    case BigInt(i) => if Safe(i) then Ok(Decimal(i)) else Err(InvalidNumber)
    case Str(s) => PrintString(s)
    case Arr(_) =>
      var body :- PrintItems(v, 0);
      Ok(OPEN_ARRAY + body + CLOSE_ARRAY)
    case Obj(m) =>
      var body :- PrintMembers(v, Utf16Order.SortedKeys(m.Keys), 0);
      Ok(OPEN_OBJECT + body + CLOSE_OBJECT)
    case Exotic => Err(InvalidType)
  }

  function Separator(i: nat): Text {
    if i > 0 then COMMA else []
  }

  ghost function PrintItems(v: Json, i: nat): Printed
    requires v.Arr? && i <= |v.items|
    decreases v, |v.items| - i
  {
    if i == |v.items| then Ok([])
    else
      var head :- PrintValue(v.items[i]);
      var tail :- PrintItems(v, i + 1);
      Ok(Separator(i) + head + tail)
  }

  ghost function PrintMember(v: Json, k: Text): Printed
    requires v.Obj? && k in v.members
    decreases v, 0
  {
    var key :- PrintString(k);
    var value :- PrintValue(v.members[k]);
    Ok(key + COLON + value)
  }

  ghost function PrintMembers(v: Json, ks: seq<Text>, i: nat): Printed
    requires v.Obj? && (forall k :: k in ks ==> k in v.members) && i <= |ks|
    decreases v, 1 + |ks| - i
  {
    if i == |ks| then Ok([])
    else
      var head :- PrintMember(v, ks[i]);
      var tail :- PrintMembers(v, ks, i + 1);
      Ok(Separator(i) + head + tail)
  }

  // canonicalizeToString: the top level must be a plain object.
  ghost function Canonical(v: Json): Printed {
    if v.Obj? then PrintValue(v) else Err(InvalidTopLevel)
  }

  // Printing succeeds on exactly the expressible values.
  lemma {:induction false} PrintsExactlyExpressible(v: Json)
    ensures PrintValue(v).Ok? <==> Expressible(v)
    decreases v
  {
    match v
    case Arr(_) => ItemsPrintExpressible(v, 0);
    case Obj(m) =>
      var ks := Utf16Order.SortedKeys(m.Keys);
      MembersPrintExpressible(v, ks, 0);
      assert forall k :: k in m ==> k in ks;
      assert forall i :: 0 <= i < |ks| ==> ks[i] in ks;
    case _ =>
  }

  lemma {:induction false} ItemsPrintExpressible(v: Json, i: nat)
    requires v.Arr? && i <= |v.items|
    ensures PrintItems(v, i).Ok? <==> forall j :: i <= j < |v.items| ==> Expressible(v.items[j])
    decreases v, |v.items| - i
  {
    if i < |v.items| {
      PrintsExactlyExpressible(v.items[i]);
      ItemsPrintExpressible(v, i + 1);
    }
  }

  lemma {:induction false} MembersPrintExpressible(v: Json, ks: seq<Text>, i: nat)
    requires v.Obj? && (forall k :: k in ks ==> k in v.members) && i <= |ks|
    ensures PrintMembers(v, ks, i).Ok? <==>
      forall j :: i <= j < |ks| ==> WellFormed(ks[j]) && Expressible(v.members[ks[j]])
    decreases v, |ks| - i
  {
    if i < |ks| {
      PrintsExactlyExpressible(v.members[ks[i]]);
      MembersPrintExpressible(v, ks, i + 1);
    }
  }

  // ---------- the writer ----------

  type Wrote = Result<(), CanonError>

  // The shared output array; `text` is what joining it gives.
  class Output {
    var text: Text

    constructor ()
      ensures text == []
    {
      text := [];
    }

    method Push(chunk: Text)
      modifies this
      ensures text == old(text) + chunk
    {
      text := text + chunk;
    }

    // What a writer promises: on success the printed text was appended, otherwise the
    // error is the printer's.
    ghost predicate Appended(before: Text, printed: Printed, wrote: Wrote)
      reads this
    {
      match printed
      case Ok(p) => wrote.Ok? && text == before + p
      case Err(e) => wrote == Err(e)
    }

    method WriteValue(v: Json) returns (r: Wrote)
      modifies this
      ensures Appended(old(text), PrintValue(v), r)
      decreases v
    {
      match v
      case Null =>
        Push(NULL);
        r := Ok(());
      case Bool(b) =>
        Push(if b then TRUE else FALSE);
        r := Ok(());
      case Num(n) =>
        r := WriteNumber(n);
      case BigInt(i) =>
        if i > MAX_SAFE || i < -MAX_SAFE {
          return Err(InvalidNumber);
        }
        Push(Decimal(i));
        r := Ok(());
      case Str(s) =>
        r := WriteString(s);
      case Arr(_) =>
        r := WriteArray(v);
      case Obj(_) =>
        r := WriteObject(v);
      case Exotic =>
        r := Err(InvalidType);
    }

    method WriteNumber(n: Number) returns (r: Wrote)
      modifies this
      ensures Appended(old(text), PrintNumber(n), r)
    {
      if n.NaN? || n.Infinity? {
        return Err(InvalidNumber);
      }
      if n.NegativeZero? || !IsInteger(n.r) {
        return Err(InvalidNumber);
      }
      if n.r > MAX_SAFE as real || n.r < -(MAX_SAFE as real) {
        return Err(InvalidNumber);
      }
      Push(Decimal(n.r.Floor));
      return Ok(());
    }

    method WriteArray(v: Json) returns (r: Wrote)
      requires v.Arr?
      modifies this
      ensures Appended(old(text), PrintValue(v), r)
      decreases v, 1
    {
      ghost var start := text;
      Push(OPEN_ARRAY);
      r := WriteItems(v);
      if r.Ok? {
        Push(CLOSE_ARRAY);
        WrapStep(start, OPEN_ARRAY, PrintItems(v, 0).value, CLOSE_ARRAY);
      }
    }

    // The loop of writeArray.
    method WriteItems(v: Json) returns (r: Wrote)
      requires v.Arr?
      modifies this
      ensures Appended(old(text), PrintItems(v, 0), r)
      decreases v, 0
    {
      ghost var base := text;
      var i := 0;
      ghost var done: Text := [];
      ContinueNothing(PrintItems(v, 0));
      while i < |v.items|
        invariant 0 <= i <= |v.items|
        invariant text == base + done
        invariant PrintItems(v, 0) == Continue(done, PrintItems(v, i))
      {
        if i > 0 {
          Push(COMMA);
        }
        assert text == base + done + Separator(i);
        var wrote := WriteValue(v.items[i]);
        ItemsStep(v, i, done);
        if wrote.Err? {
          return wrote;
        }
        ghost var head := PrintValue(v.items[i]).value;
        AppendStep(base, done, Separator(i), head);
        done := done + (Separator(i) + head);
        i := i + 1;
      }
      return Ok(());
    }

    method WriteObject(v: Json) returns (r: Wrote)
      requires v.Obj?
      modifies this
      ensures Appended(old(text), PrintValue(v), r)
      decreases v, 3
    {
      ghost var start := text;
      var enumerated := KeysOf(v.members);
      var keys := Utf16Order.Sort(enumerated);
      SortedEnumeration(enumerated, v.members);
      Push(OPEN_OBJECT);
      r := WriteMembers(v, keys);
      if r.Ok? {
        Push(CLOSE_OBJECT);
        WrapStep(start, OPEN_OBJECT, PrintMembers(v, keys, 0).value, CLOSE_OBJECT);
      }
    }

    // The loop of writeObject.
    method WriteMembers(v: Json, keys: seq<Text>) returns (r: Wrote)
      requires v.Obj? && (forall k :: k in keys ==> k in v.members) && Utf16Order.Distinct(keys)
      modifies this
      ensures Appended(old(text), PrintMembers(v, keys, 0), r)
      decreases v, 2
    {
      ghost var base := text;
      var first := true;
      var seen: set<Text> := {};
      var i := 0;
      ghost var done: Text := [];
      ContinueNothing(PrintMembers(v, keys, 0));
      while i < |keys|
        invariant 0 <= i <= |keys|
        invariant first <==> i == 0
        invariant forall k :: k in seen ==> k in keys[..i]
        invariant text == base + done
        invariant PrintMembers(v, keys, 0) == Continue(done, PrintMembers(v, keys, i))
      {
        var k := keys[i];
        assert k !in keys[..i];
        if k in seen {
          assert false; // the keys of one object are distinct
        }
        seen := seen + {k};
        if !first {
          Push(COMMA);
        }
        first := false;
        assert text == base + done + Separator(i);
        assert k in keys;
        var wrote := WriteMember(v, k);
        MembersStep(v, keys, i, done);
        if wrote.Err? {
          return wrote;
        }
        ghost var member := PrintMember(v, k).value;
        AppendStep(base, done, Separator(i), member);
        done := done + (Separator(i) + member);
        i := i + 1;
      }
      return Ok(());
    }

    method WriteMember(v: Json, k: Text) returns (r: Wrote)
      requires v.Obj? && k in v.members
      modifies this
      ensures Appended(old(text), PrintMember(v, k), r)
      decreases v, 1
    {
      ghost var base := text;
      r := WriteString(k);
      if r.Ok? {
        Push(COLON);
        r := WriteValue(v.members[k]);
        if r.Ok? {
          assert text == base + PrintMember(v, k).value;
        }
      }
    }

    method WriteString(s: Text) returns (r: Wrote)
      modifies this
      ensures Appended(old(text), PrintString(s), r)
    {
      var valid := ValidateUtf16(s);
      if !valid {
        return Err(InvalidUTF8);
      }
      Push(QUOTE);
      WriteEscaped(s);
      Push(QUOTE);
      return Ok(());
    }

    // The loop of writeString.
    method WriteEscaped(s: Text)
      requires WellFormed(s)
      modifies this
      ensures text == old(text) + Escape(s)
    {
      ghost var base := text;
      var i := 0;
      while i < |s|
        invariant 0 <= i <= |s| && WellFormed(s[i..])
        invariant text + Escape(s[i..]) == base + Escape(s)
      {
        i := WriteUnits(s, i);
      }
      assert s[i..] == [];
    }

    // One round of it: a surrogate pair goes out raw, both halves at once.
    method WriteUnits(s: Text, i: nat) returns (next: nat)
      requires i < |s| && WellFormed(s[i..])
      modifies this
      ensures i < next <= |s| && WellFormed(s[next..])
      ensures text + Escape(s[next..]) == old(text) + Escape(s[i..])
    {
      WellFormedStep(s, i);
      EscapeDrop(s, i);
      var c := s[i];
      if High(c) {
        EscapeDrop(s, i + 1);
        Push([s[i]]);
        Push([s[i + 1]]);
        next := i + 2;
      } else {
        PushEscaped(c);
        next := i + 1;
      }
    }

    // The branches of writeString for a unit that is not part of a pair.
    method PushEscaped(c: Unit)
      modifies this
      ensures text == old(text) + EscapeUnit(c)
    {
      if c == 0x22 {
        Push([0x5c, 0x22]);
      } else if c == 0x5c {
        Push([0x5c, 0x5c]);
      } else if c == 0x08 {
        Push([0x5c, 0x62]);
      } else if c == 0x09 {
        Push([0x5c, 0x74]);
      } else if c == 0x0a {
        Push([0x5c, 0x6e]);
      } else if c == 0x0c {
        Push([0x5c, 0x66]);
      } else if c == 0x0d {
        Push([0x5c, 0x72]);
      } else if c < 0x20 {
        Push([0x5c, 0x75, 0x30, 0x30]);
        Push([HexDigit(c / 16)]);
        Push([HexDigit(c % 16)]);
      } else {
        Push([c]);
      }
    }
  }

  // One unit of escaping, at a cursor.
  lemma EscapeDrop(s: Text, i: nat)
    requires i < |s|
    ensures Escape(s[i..]) == EscapeUnit(s[i]) + Escape(s[i + 1..])
  {
    DropDrop(s, i, 1);
  }

  lemma WellFormedStep(s: Text, i: nat)
    requires i < |s| && WellFormed(s[i..])
    ensures High(s[i]) ==> i + 1 < |s| && Low(s[i + 1]) && WellFormed(s[i + 2..])
    ensures !High(s[i]) ==> !Low(s[i]) && WellFormed(s[i + 1..])
  {
    DropDrop(s, i, 1);
    if High(s[i]) {
      DropDrop(s, i, 2);
    }
  }

  lemma MembersStep(v: Json, ks: seq<Text>, i: nat, done: Text)
    requires v.Obj? && (forall k :: k in ks ==> k in v.members) && i < |ks|
    requires PrintMembers(v, ks, 0) == Continue(done, PrintMembers(v, ks, i))
    ensures match PrintMember(v, ks[i])
            case Ok(p) => PrintMembers(v, ks, 0) == Continue(done + (Separator(i) + p), PrintMembers(v, ks, i + 1))
            case Err(e) => PrintMembers(v, ks, 0) == Err(e)
  {
    var head := PrintMember(v, ks[i]);
    if head.Ok? {
      ContinueStep(done, Separator(i) + head.value, PrintMembers(v, ks, i + 1));
    }
  }

  lemma ItemsStep(v: Json, i: nat, done: Text)
    requires v.Arr? && i < |v.items|
    requires PrintItems(v, 0) == Continue(done, PrintItems(v, i))
    ensures match PrintValue(v.items[i])
            case Ok(p) => PrintItems(v, 0) == Continue(done + (Separator(i) + p), PrintItems(v, i + 1))
            case Err(e) => PrintItems(v, 0) == Err(e)
  {
    var head := PrintValue(v.items[i]);
    if head.Ok? {
      ContinueStep(done, Separator(i) + head.value, PrintItems(v, i + 1));
    }
  }

  lemma WrapStep(start: Text, open: Text, body: Text, close: Text)
    ensures start + open + body + close == start + (open + body + close)
  {
  }

  lemma AppendStep(base: Text, done: Text, separator: Text, piece: Text)
    ensures base + done + separator + piece == base + (done + (separator + piece))
  {
  }

  // However Object.keys enumerated the keys, sorting lists them ascending.
  lemma SortedEnumeration(ks: seq<Text>, m: map<Text, Json>)
    requires Utf16Order.Distinct(ks) && (forall k :: k in ks <==> k in m)
    ensures Utf16Order.Sort(ks) == Utf16Order.SortedKeys(m.Keys)
    ensures Utf16Order.Distinct(Utf16Order.Sort(ks))
  {
    Utf16Order.SortLists(ks);
    assert (set k | k in ks) == m.Keys;
    Utf16Order.SortUnique(Utf16Order.Sort(ks), Utf16Order.SortedKeys(m.Keys), m.Keys);
    Utf16Order.AscendingDistinct(Utf16Order.Sort(ks));
  }

  // The rest of a text once `done` has been written.
  ghost function Continue(done: Text, rest: Printed): Printed {
    match rest
    case Ok(p) => Ok(done + p)
    case Err(e) => Err(e)
  }

  lemma ContinueNothing(rest: Printed)
    ensures Continue([], rest) == rest
  {
    if rest.Ok? {
      assert [] + rest.value == rest.value;
    }
  }

  lemma ContinueStep(done: Text, piece: Text, rest: Printed)
    ensures Continue(done + piece, rest) == Continue(done, Continue(piece, rest))
  {
    if rest.Ok? {
      AppendAssoc(done, piece, rest.value);
    }
  }

  // Object.keys: every key once, in an order the language leaves open here.
  method KeysOf(m: map<Text, Json>) returns (ks: seq<Text>)
    ensures Utf16Order.Distinct(ks)
    ensures forall k :: k in ks <==> k in m
  {
    ks := [];
    var rest := m.Keys;
    while rest != {}
      invariant Utf16Order.Distinct(ks)
      invariant rest <= m.Keys
      invariant forall k :: k in ks <==> k in m.Keys - rest
      decreases rest
    {
      var k :| k in rest;
      assert k !in ks;
      ks := ks + [k];
      rest := rest - {k};
    }
  }

  method ValidateUtf16(s: Text) returns (valid: bool)
    ensures valid == WellFormed(s)
  {
    var i := 0;
    while i < |s|
      invariant 0 <= i <= |s|
      invariant WellFormed(s) == WellFormed(s[i..])
    {
      var c := s[i];
      DropDrop(s, i, 1);
      if High(c) {
        if !(i + 1 < |s| && Low(s[i + 1])) {
          return false;
        }
        DropDrop(s, i, 2);
        i := i + 2;
      } else if Low(c) {
        return false;
      } else {
        i := i + 1;
      }
    }
    return true;
  }

  method CanonicalizeToString(v: Json) returns (r: Printed)
    ensures r == Canonical(v)
  {
    if !v.Obj? {
      return Err(InvalidTopLevel);
    }
    var out := new Output();
    var wrote := out.WriteObject(v);
    if wrote.Err? {
      return Err(wrote.error);
    }
    ContinueNothing(Canonical(v));
    return Ok(out.text);
  }
}
