// The strict parser of typescript/src/strict-json.ts: what it makes of every text, and the
// cursor-driven recursive descent that computes it.
module StrictJson {
  import opened Base
  import opened JsonValue
  import opened JsonGrammar

  // ---------- what the parser returns ----------

  // `out[key] = value` on an object literal: __proto__ sets the prototype, so no own
  // property appears.
  function Assign(out: map<Text, Json>, key: Text, value: Json): map<Text, Json> {
    if key == PROTO then out else out[key := value]
  }

  function ValueOf(s0: Text): (p: Parsed<Json>)
    ensures p.Got? ==> |p.rest| < |s0|
    decreases |s0|, 1
  {
    var s := SkipWs(s0);
    if s == [] then Bad(Malformed)
    else if s[0] == 0x7b then ObjectOf(s[1..])
    else if s[0] == 0x5b then ArrayOf(s[1..])
    else if s[0] == 0x22 then
      var (text, rest) :- ReadString(s);
      Got(Str(text), rest)
    else if s[0] == 0x74 then ReadLiteral(s, TRUE, Bool(true))
    else if s[0] == 0x66 then ReadLiteral(s, FALSE, Bool(false))
    else if s[0] == 0x6e then ReadLiteral(s, NULL, Null)
    else if s[0] == 0x2d || IsDigit(s[0]) then
      var (n, rest) :- ReadNumber(s);
      Got(Num(n), rest)
    else Bad(Malformed)
  }

  // After the opening bracket.
  function ArrayOf(s: Text): (p: Parsed<Json>)
    ensures p.Got? ==> |p.rest| < |s|
    decreases |s|, 3
  {
    var t := SkipWs(s);
    if Starts(t, 0x5d) then Got(Arr([]), t[1..])
    else
      var (items, rest) :- ItemsOf(t);
      Got(Arr(items), rest)
  }

  function ItemsOf(s: Text): (p: Parsed<seq<Json>>)
    ensures p.Got? ==> |p.rest| < |s|
    decreases |s|, 2
  {
    var (item, t) :- ValueOf(s);
    var u := SkipWs(t);
    if Starts(u, 0x2c) then
      var (items, rest) :- ItemsOf(u[1..]);
      Got([item] + items, rest)
    else if Starts(u, 0x5d) then Got([item], u[1..])
    else Bad(Malformed)
  }

  // After the opening brace.
  function ObjectOf(s: Text): (p: Parsed<Json>)
    ensures p.Got? ==> |p.rest| < |s|
    decreases |s|, 3
  {
    var t := SkipWs(s);
    if Starts(t, 0x7d) then Got(Obj(map[]), t[1..])
    else
      var (members, rest) :- MembersOf(t, map[]);
      Got(Obj(members), rest)
  }

  // One member read off `s`: a key not yet in `out`, ':' and a value.
  function MemberOf(s: Text, out: map<Text, Json>): (p: Parsed<(Text, Json)>)
    ensures p.Got? ==> |p.rest| < |s|
    decreases |s|, 1
  {
    var (key, t) :- ReadString(SkipWs(s));
    if key in out then Bad(DuplicateKey(key))
    else
      var u := SkipWs(t);
      if !Starts(u, 0x3a) then Bad(Malformed)
      else
        var (value, w) :- ValueOf(u[1..]);
        Got((key, value), w)
  }

  // The members still to come, on top of those already in `out`.
  function MembersOf(s: Text, out: map<Text, Json>): (p: Parsed<map<Text, Json>>)
    ensures p.Got? ==> |p.rest| < |s|
    decreases |s|, 2
  {
    var (member, w) :- MemberOf(s, out);
    var x := SkipWs(w);
    var next := Assign(out, member.0, member.1);
    if Starts(x, 0x2c) then MembersOf(x[1..], next)
    else if Starts(x, 0x7d) then Got(next, x[1..])
    else Bad(Malformed)
  }

  function TextOf(s: Text): Result<Json, ParseError> {
    match ValueOf(SkipWs(s))
    case Bad(e) => Err(e)
    case Got(v, rest) => if SkipWs(rest) == [] then Ok(v) else Err(Malformed)
  }

  // A parse continued after `done` has been read already.
  ghost function After(done: Text, p: Parsed<Text>): Parsed<Text> {
    match p
    case Got(v, rest) => Got(done + v, rest)
    case Bad(e) => Bad(e)
  }

  ghost function AfterItems(done: seq<Json>, p: Parsed<seq<Json>>): Parsed<seq<Json>> {
    match p
    case Got(v, rest) => Got(done + v, rest)
    case Bad(e) => Bad(e)
  }

  lemma AfterUnit(done: Text, c: Unit, p: Parsed<Text>)
    ensures After(done, After([c], p)) == After(done + [c], p)
  {
    if p.Got? {
      AppendAssoc(done, [c], p.value);
    }
  }

  // ---------- the parser ----------

  class Ctx {
    const text: Text
    var i: nat

    constructor (text: Text)
      ensures this.text == text && i == 0
    {
      this.text := text;
      i := 0;
    }

    ghost predicate Valid()
      reads this
    {
      i <= |text|
    }

    // What a parsing method promises: the cursor and value of `p`, or its error.
    ghost predicate Did<T>(p: Parsed<T>, r: Result<T, ParseError>)
      reads this
    {
      match p
      case Got(v, rest) => Valid() && r == Ok(v) && text[i..] == rest
      case Bad(e) => r == Err(e)
    }

    predicate At(c: Unit)
      reads this
      ensures Valid() ==> At(c) == Starts(text[i..], c)
    {
      i < |text| && text[i] == c
    }

    predicate AtDigit()
      reads this
    {
      i < |text| && IsDigit(text[i])
    }

    method Advance()
      requires i < |text|
      modifies this`i
      ensures i == old(i) + 1 && Valid()
      ensures text[i..] == text[old(i)..][1..]
    {
      DropDrop(text, i, 1);
      i := i + 1;
    }

    method SkipWs()
      requires Valid()
      modifies this`i
      ensures Valid() && old(i) <= i
      ensures text[i..] == JsonGrammar.SkipWs(text[old(i)..])
    {
      while i < |text|
        invariant Valid() && old(i) <= i
        invariant JsonGrammar.SkipWs(text[i..]) == JsonGrammar.SkipWs(text[old(i)..])
      {
        var c := text[i];
        if c == 0x20 || c == 0x09 || c == 0x0a || c == 0x0d {
          Advance();
        } else {
          break;
        }
      }
    }

    method ParseText() returns (r: Result<Json, ParseError>)
      requires i == 0
      modifies this`i
      ensures r == TextOf(text)
    {
      assert text[0..] == text;
      SkipWs();
      r := ParseValue();
      if r.Err? {
        return;
      }
      SkipWs();
      if i != |text| {
        return Err(Malformed);
      }
    }

    method ParseValue() returns (r: Result<Json, ParseError>)
      requires Valid()
      modifies this`i
      ensures Did(ValueOf(text[old(i)..]), r)
      decreases |text| - i, 1
    {
      SkipWs();
      if i >= |text| {
        return Err(Malformed);
      }
      var c := text[i];
      if c == 0x7b {
        r := ParseObject();
      } else if c == 0x5b {
        r := ParseArray();
      } else if c == 0x22 {
        var s := ParseString();
        r := if s.Ok? then Ok(Str(s.value)) else Err(s.error);
      } else if c == 0x74 {
        r := ParseLiteral(TRUE, Bool(true));
      } else if c == 0x66 {
        r := ParseLiteral(FALSE, Bool(false));
      } else if c == 0x6e {
        r := ParseLiteral(NULL, Null);
      } else if c == 0x2d || 0x30 <= c <= 0x39 {
        var n := ParseNumber();
        r := if n.Ok? then Ok(Num(n.value)) else Err(n.error);
      } else {
        r := Err(Malformed);
      }
    }

    method ParseObject() returns (r: Result<Json, ParseError>)
      requires Valid() && At(0x7b)
      modifies this`i
      ensures Did(ObjectOf(text[old(i)..][1..]), r)
      decreases |text| - i, 0
    {
      Advance();
      var out: map<Text, Json> := map[];
      SkipWs();
      if At(0x7d) {
        Advance();
        return Ok(Obj(out));
      }
      ghost var s := text[i..];
      while true
        invariant Valid() && old(i) < i
        invariant MembersOf(text[i..], out) == MembersOf(s, map[])
        decreases |text| - i
      {
        var member := ParseMember(out);
        if member.Err? {
          return Err(member.error);
        }
        out := Assign(out, member.value.0, member.value.1);
        SkipWs();
        if At(0x2c) {
          Advance();
          continue;
        }
        if At(0x7d) {
          Advance();
          return Ok(Obj(out));
        }
        return Err(Malformed);
      }
    }

    // One round of the object loop: a key not seen before, ':' and a value.
    method ParseMember(out: map<Text, Json>) returns (r: Result<(Text, Json), ParseError>)
      requires Valid()
      modifies this`i
      ensures Did(MemberOf(text[old(i)..], out), r)
      decreases |text| - i, 2
    {
      SkipWs();
      if !At(0x22) {
        return Err(Malformed);
      }
      var key := ParseString();
      if key.Err? {
        return Err(key.error);
      }
      if key.value in out {
        return Err(DuplicateKey(key.value));
      }
      SkipWs();
      if !At(0x3a) {
        return Err(Malformed);
      }
      Advance();
      var value := ParseValue();
      if value.Err? {
        return Err(value.error);
      }
      return Ok((key.value, value.value));
    }

    method ParseArray() returns (r: Result<Json, ParseError>)
      requires Valid() && At(0x5b)
      modifies this`i
      ensures Did(ArrayOf(text[old(i)..][1..]), r)
      decreases |text| - i, 0
    {
      Advance();
      var out: seq<Json> := [];
      SkipWs();
      if At(0x5d) {
        Advance();
        return Ok(Arr(out));
      }
      ghost var s := text[i..];
      ItemsFromNothing(ItemsOf(s));
      while true
        invariant Valid() && old(i) < i
        invariant AfterItems(out, ItemsOf(text[i..])) == ItemsOf(s)
        decreases |text| - i
      {
        ghost var before := text[i..];
        var value := ParseValue();
        if value.Err? {
          return Err(value.error);
        }
        SkipWs();
        ItemsStep(out, before);
        out := out + [value.value];
        if At(0x2c) {
          Advance();
          continue;
        }
        if At(0x5d) {
          Advance();
          return Ok(Arr(out));
        }
        return Err(Malformed);
      }
    }

    // ---------- strings: the fast path slices, the slow path decodes ----------

    method ParseString() returns (r: Result<Text, ParseError>)
      requires Valid()
      modifies this`i
      ensures Did(ReadString(text[old(i)..]), r)
    {
      if !At(0x22) {
        return Err(Malformed);
      }
      Advance();
      var start := i;
      assert text[start..i] == [];
      AfterNothing(ReadChars(text[start..]));
      while i < |text|
        invariant start <= i <= |text|
        invariant After(text[start..i], ReadChars(text[i..])) == ReadChars(text[start..])
      {
        var c := text[i];
        if c == 0x22 {
          var value := text[start..i];
          assert value + [] == value;
          Advance();
          return Ok(value);
        }
        if c == 0x5c {
          r := ParseStringSlow(text[start..i]);
          return;
        }
        if c < 0x20 {
          return Err(Malformed);
        }
        PlainStep(text, start, i);
        i := i + 1;
      }
      return Err(Malformed);
    }

    method ParseStringSlow(prefix: Text) returns (r: Result<Text, ParseError>)
      requires Valid()
      modifies this`i
      ensures Did(After(prefix, ReadChars(text[old(i)..])), r)
    {
      var acc := prefix;
      while i < |text|
        invariant Valid()
        invariant After(acc, ReadChars(text[i..])) == After(prefix, ReadChars(text[old(i)..]))
        decreases |text| - i
      {
        var ch := text[i];
        if ch == 0x22 {
          assert acc + [] == acc;
          Advance();
          return Ok(acc);
        }
        if ch == 0x5c {
          CharStep(acc, text[i..]);
          Advance();
          var e := ParseEscape();
          if e.Err? {
            return Err(e.error);
          }
          acc := acc + [e.value];
          continue;
        }
        if ch < 0x20 {
          return Err(Malformed);
        }
        CharStep(acc, text[i..]);
        acc := acc + [ch];
        Advance();
        // Take the second half of a surrogate pair along.
        if High(ch) && i < |text| {
          var lo := text[i];
          if Low(lo) {
            CharStep(acc, text[i..]);
            acc := acc + [lo];
            Advance();
          }
        }
      }
      return Err(Malformed);
    }

    // The switch after a backslash.
    method ParseEscape() returns (r: Result<Unit, ParseError>)
      requires Valid()
      modifies this`i
      ensures Did(ReadEscape(text[old(i)..]), r)
    {
      if i >= |text| {
        return Err(Malformed);
      }
      var e := text[i];
      if e == 0x75 {
        if i + 5 > |text| {
          return Err(Malformed);
        }
        var hex := text[i + 1..i + 5];
        assert hex == text[i..][1..5];
        if !(IsHex(hex[0]) && IsHex(hex[1]) && IsHex(hex[2]) && IsHex(hex[3])) {
          return Err(Malformed);
        }
        DropDrop(text, i, 5);
        i := i + 5;
        return Ok(Hex4(hex));
      }
      Advance();
      if e == 0x22 || e == 0x5c || e == 0x2f {
        return Ok(e);
      } else if e == 0x62 {
        return Ok(0x08);
      } else if e == 0x66 {
        return Ok(0x0c);
      } else if e == 0x6e {
        return Ok(0x0a);
      } else if e == 0x72 {
        return Ok(0x0d);
      } else if e == 0x74 {
        return Ok(0x09);
      }
      return Err(Malformed);
    }

    // ---------- numbers ----------

    // `while (isDigit(...)) ctx.i++`, returning the run.
    method TakeDigits() returns (ds: Text)
      requires Valid()
      modifies this`i
      ensures Valid() && old(i) <= i
      ensures ds == text[old(i)..][..DigitRun(text[old(i)..])]
      ensures text[i..] == text[old(i)..][DigitRun(text[old(i)..])..]
    {
      var start := i;
      while i < |text| && IsDigit(text[i])
        invariant start <= i <= |text|
        invariant DigitRun(text[start..]) == i - start + DigitRun(text[i..])
      {
        Advance();
      }
      ds := text[start..i];
      DropDrop(text, start, i - start);
    }

    method ParseNumber() returns (r: Result<Number, ParseError>)
      requires Valid()
      modifies this`i
      ensures Did(ReadNumber(text[old(i)..]), r)
    {
      var negative := At(0x2d);
      if negative {
        Advance();
      }
      var whole := ParseWhole();
      if whole.Err? {
        return Err(whole.error);
      }
      var fraction := ParseFraction();
      if fraction.Err? {
        return Err(fraction.error);
      }
      var exponent := ParseExponent();
      if exponent.Err? {
        return Err(exponent.error);
      }
      var literal := Literal(negative, whole.value, fraction.value, exponent.value.0, exponent.value.1);
      var num := ToNumber(literal);
      if num.Infinity? {
        return Err(Malformed);
      }
      return Ok(num);
    }

    method ParseWhole() returns (r: Result<Text, ParseError>)
      requires Valid()
      modifies this`i
      ensures Did(ReadWhole(text[old(i)..]), r)
    {
      if At(0x30) {
        var zero := text[i];
        assert [zero] == text[i..][..1];
        Advance();
        return Ok([zero]);
      } else if AtDigit() {
        var ds := TakeDigits();
        return Ok(ds);
      } else {
        return Err(Malformed);
      }
    }

    method ParseFraction() returns (r: Result<Text, ParseError>)
      requires Valid()
      modifies this`i
      ensures Did(ReadFraction(text[old(i)..]), r)
    {
      if !At(0x2e) {
        return Ok([]);
      }
      Advance();
      if !AtDigit() {
        return Err(Malformed);
      }
      var ds := TakeDigits();
      return Ok(ds);
    }

    method ParseExponent() returns (r: Result<(bool, Text), ParseError>)
      requires Valid()
      modifies this`i
      ensures Did(ReadExponent(text[old(i)..]), r)
    {
      if !At(0x65) && !At(0x45) {
        return Ok((false, []));
      }
      Advance();
      var negative := At(0x2d);
      if negative || At(0x2b) {
        Advance();
      }
      if !AtDigit() {
        return Err(Malformed);
      }
      var ds := TakeDigits();
      return Ok((negative, ds));
    }

    method ParseLiteral(expected: Text, value: Json) returns (r: Result<Json, ParseError>)
      requires Valid()
      modifies this`i
      ensures Did(ReadLiteral(text[old(i)..], expected, value), r)
    {
      if i + |expected| > |text| || text[i..i + |expected|] != expected {
        return Err(Malformed);
      }
      DropDrop(text, i, |expected|);
      i := i + |expected|;
      return Ok(value);
    }
  }

  // strictParse.
  method StrictParse(text: Text) returns (r: Result<Json, ParseError>)
    ensures r == TextOf(text)
  {
    var ctx := new Ctx(text);
    r := ctx.ParseText();
  }

  // ---------- steps of the loops ----------

  lemma AfterNothing(p: Parsed<Text>)
    ensures After([], p) == p
  {
    if p.Got? {
      assert [] + p.value == p.value;
    }
  }

  lemma CharStep(done: Text, s: Text)
    requires s != [] && s[0] != 0x22
    ensures ReadChar(s).Got? ==>
      After(done, ReadChars(s)) == After(done + [ReadChar(s).value], ReadChars(ReadChar(s).rest))
    ensures ReadChar(s).Bad? ==> After(done, ReadChars(s)) == Bad(ReadChar(s).error)
  {
    if ReadChar(s).Got? {
      AfterUnit(done, ReadChar(s).value, ReadChars(ReadChar(s).rest));
    }
  }

  // The fast path: a unit that stands for itself.
  lemma PlainStep(text: Text, start: nat, i: nat)
    requires start <= i < |text| && text[i] != 0x22 && text[i] != 0x5c && text[i] >= 0x20
    ensures After(text[start..i], ReadChars(text[i..])) == After(text[start..i + 1], ReadChars(text[i + 1..]))
  {
    CharStep(text[start..i], text[i..]);
    DropDrop(text, i, 1);
    assert text[start..i] + [text[i]] == text[start..i + 1];
  }

  lemma ItemsFromNothing(p: Parsed<seq<Json>>)
    ensures AfterItems([], p) == p
  {
    if p.Got? {
      assert [] + p.value == p.value;
    }
  }

  lemma ItemsStep(done: seq<Json>, s: Text)
    requires ValueOf(s).Got?
    ensures
      var v := ValueOf(s).value;
      var u := SkipWs(ValueOf(s).rest);
      AfterItems(done, ItemsOf(s)) ==
        if Starts(u, 0x2c) then AfterItems(done + [v], ItemsOf(u[1..]))
        else if Starts(u, 0x5d) then Got(done + [v], u[1..])
        else Bad(Malformed)
  {
    var v := ValueOf(s).value;
    var u := SkipWs(ValueOf(s).rest);
    if Starts(u, 0x2c) && ItemsOf(u[1..]).Got? {
      AppendAssoc(done, [v], ItemsOf(u[1..]).value);
    }
  }
}
