// JSON texts (RFC 8259) as functions on the text still to be read: white space, literals,
// strings decoded in one pass, numbers, and a reference parser that builds a syntax tree
// keeping every object member in source order, repeated keys included.
module JsonGrammar {
  import opened Base
  import opened JsonValue

  datatype ParseError = Malformed | DuplicateKey(key: Text)

  // A value read off the front of a text and the text after it.
  datatype Parsed<+T> = Got(value: T, rest: Text) | Bad(error: ParseError) {
    predicate IsFailure() {
      Bad?
    }

    function PropagateFailure<U>(): Parsed<U>
      requires Bad?
    {
      Bad(error)
    }

    function Extract(): (T, Text)
      requires Got?
    {
      (value, rest)
    }
  }

  datatype Member = Member(key: Text, value: Tree)

  datatype Tree =
    | TNull
    | TBool(b: bool)
    | TNum(n: Number)
    | TStr(s: Text)
    | TArr(items: seq<Tree>)
    | TObj(members: seq<Member>)

  // ---------- white space and literals ----------

  predicate IsWs(c: Unit) {
    c == 0x20 || c == 0x09 || c == 0x0a || c == 0x0d
  }

  function SkipWs(s: Text): (r: Text)
    ensures |r| <= |s|
    ensures r != [] ==> !IsWs(r[0])
  {
    if s != [] && IsWs(s[0]) then SkipWs(s[1..]) else s
  }

  predicate Starts(s: Text, c: Unit) {
    s != [] && s[0] == c
  }

  function ReadLiteral<T>(s: Text, expected: Text, value: T): Parsed<T> {
    if expected <= s then Got(value, s[|expected|..]) else Bad(Malformed)
  }

  // ---------- strings ----------

  predicate IsHex(c: Unit) {
    0x30 <= c <= 0x39 || 0x41 <= c <= 0x46 || 0x61 <= c <= 0x66
  }

  function HexValue(c: Unit): (d: int)
    requires IsHex(c)
    ensures 0 <= d < 16
  {
    if c <= 0x39 then c - 0x30 else if c <= 0x46 then c - 0x41 + 10 else c - 0x61 + 10
  }

  function Hex4(s: Text): Unit
    requires |s| == 4 && IsHex(s[0]) && IsHex(s[1]) && IsHex(s[2]) && IsHex(s[3])
  {
    ((HexValue(s[0]) * 16 + HexValue(s[1])) * 16 + HexValue(s[2])) * 16 + HexValue(s[3])
  }

  // What follows a backslash: the unit it denotes.
  function ReadEscape(s: Text): (p: Parsed<Unit>)
    ensures p.Bad? ==> p.error == Malformed
    ensures p.Got? ==> |p.rest| < |s|
  {
    if s == [] then Bad(Malformed)
    else if s[0] == 0x22 || s[0] == 0x5c || s[0] == 0x2f then Got(s[0], s[1..])
    else if s[0] == 0x62 then Got(0x08, s[1..])
    else if s[0] == 0x66 then Got(0x0c, s[1..])
    else if s[0] == 0x6e then Got(0x0a, s[1..])
    else if s[0] == 0x72 then Got(0x0d, s[1..])
    else if s[0] == 0x74 then Got(0x09, s[1..])
    else if s[0] == 0x75 then
      if |s| >= 5 && IsHex(s[1]) && IsHex(s[2]) && IsHex(s[3]) && IsHex(s[4])
      then Got(Hex4(s[1..5]), s[5..])
      else Bad(Malformed)
    else Bad(Malformed)
  }

  // One unit of a string's content, decoded.
  function ReadChar(s: Text): (p: Parsed<Unit>)
    requires s != [] && s[0] != 0x22
    ensures p.Bad? ==> p.error == Malformed
    ensures p.Got? ==> |p.rest| < |s|
  {
    if s[0] == 0x5c then ReadEscape(s[1..])
    else if s[0] < 0x20 then Bad(Malformed)
    else Got(s[0], s[1..])
  }

  // The content of a string up to and including its closing quote.
  function ReadChars(s: Text): (p: Parsed<Text>)
    ensures p.Bad? ==> p.error == Malformed
    ensures p.Got? ==> |p.rest| < |s|
  {
    if s == [] then Bad(Malformed)
    else if s[0] == 0x22 then Got([], s[1..])
    else
      var (c, rest) :- ReadChar(s);
      var (cs, after) :- ReadChars(rest);
      Got([c] + cs, after)
  }

  function ReadString(s: Text): (p: Parsed<Text>)
    ensures p.Bad? ==> p.error == Malformed
    ensures p.Got? ==> |p.rest| < |s|
  {
    if Starts(s, 0x22) then ReadChars(s[1..]) else Bad(Malformed)
  }

  // ---------- numbers ----------

  predicate IsDigit(c: Unit) {
    0x30 <= c <= 0x39
  }

  // Length of the run of digits a text starts with.
  function DigitRun(s: Text): (n: nat)
    ensures n <= |s|
  {
    if s != [] && IsDigit(s[0]) then 1 + DigitRun(s[1..]) else 0
  }

  function DigitValue(c: Unit): nat {
    if IsDigit(c) then c - 0x30 else 0
  }

  function DecimalValue(ds: Text): nat {
    if ds == [] then 0 else 10 * DecimalValue(ds[..|ds| - 1]) + DigitValue(ds[|ds| - 1])
  }

  // m * 10^e and m / 10^e.
  function TimesTen(m: real, e: nat): real
    decreases e
  {
    if e == 0 then m else TimesTen(10.0 * m, e - 1)
  }

  function OverTen(m: real, e: nat): real
    decreases e
  {
    if e == 0 then m else OverTen(m / 10.0, e - 1)
  }

  // The parts of a number literal. `exponent` carries its sign separately.
  datatype Literal = Literal(negative: bool, whole: Text, fraction: Text, exponentNegative: bool, exponent: Text)

  function Magnitude(l: Literal): real {
    var m := DecimalValue(l.whole) as real + OverTen(DecimalValue(l.fraction) as real, |l.fraction|);
    if l.exponentNegative then OverTen(m, DecimalValue(l.exponent)) else TimesTen(m, DecimalValue(l.exponent))
  }

  // Number(literal): out-of-range magnitudes become Infinity, and minus zero is a number
  // of its own.
  function ToNumber(l: Literal): Number {
    var m := Magnitude(l);
    if m >= OVERFLOW then Infinity(l.negative)
    else if m == 0.0 && l.negative then NegativeZero
    else Finite(if l.negative then -m else m)
  }

  // The digits after '.', or none when there is no '.'.
  function ReadFraction(s: Text): (p: Parsed<Text>)
    ensures p.Bad? ==> p.error == Malformed
    ensures p.Got? ==> |p.rest| <= |s|
  {
    if Starts(s, 0x2e) then
      var k := DigitRun(s[1..]);
      if k == 0 then Bad(Malformed) else Got(s[1..][..k], s[1..][k..])
    else Got([], s)
  }

  // Whether the exponent is negative, and its digits; none when there is no 'e' or 'E'.
  function ReadExponent(s: Text): (p: Parsed<(bool, Text)>)
    ensures p.Bad? ==> p.error == Malformed
    ensures p.Got? ==> |p.rest| <= |s|
  {
    if Starts(s, 0x65) || Starts(s, 0x45) then
      var t := s[1..];
      var signed := Starts(t, 0x2b) || Starts(t, 0x2d);
      var u := if signed then t[1..] else t;
      var k := DigitRun(u);
      if k == 0 then Bad(Malformed) else Got((Starts(t, 0x2d), u[..k]), u[k..])
    else Got((false, []), s)
  }

  // The integer part: a lone zero, or a run of digits.
  function ReadWhole(s: Text): (p: Parsed<Text>)
    ensures p.Bad? ==> p.error == Malformed
    ensures p.Got? ==> |p.rest| < |s|
  {
    var k := if Starts(s, 0x30) then 1 else DigitRun(s);
    if k == 0 then Bad(Malformed) else Got(s[..k], s[k..])
  }

  function ReadLiteralParts(s: Text): (p: Parsed<Literal>)
    ensures p.Bad? ==> p.error == Malformed
    ensures p.Got? ==> |p.rest| < |s|
  {
    var negative := Starts(s, 0x2d);
    var (whole, t) :- ReadWhole(if negative then s[1..] else s);
    var (fraction, u) :- ReadFraction(t);
    var (exponent, rest) :- ReadExponent(u);
    Got(Literal(negative, whole, fraction, exponent.0, exponent.1), rest)
  }

  function ReadNumber(s: Text): (p: Parsed<Number>)
    ensures p.Bad? ==> p.error == Malformed
    ensures p.Got? ==> |p.rest| < |s|
  {
    var (literal, rest) :- ReadLiteralParts(s);
    if ToNumber(literal).Infinity? then Bad(Malformed) else Got(ToNumber(literal), rest)
  }

  // ---------- the reference parser ----------

  function ReadTree(s0: Text): (p: Parsed<Tree>)
    ensures p.Got? ==> |p.rest| < |s0|
    ensures p.Bad? ==> p.error == Malformed
    decreases |s0|, 1
  {
    var s := SkipWs(s0);
    if s == [] then Bad(Malformed)
    else if s[0] == 0x7b then ReadObject(s[1..])
    else if s[0] == 0x5b then ReadArray(s[1..])
    else if s[0] == 0x22 then
      var (text, rest) :- ReadString(s);
      Got(TStr(text), rest)
    else if s[0] == 0x74 then ReadLiteral(s, TRUE, TBool(true))
    else if s[0] == 0x66 then ReadLiteral(s, FALSE, TBool(false))
    else if s[0] == 0x6e then ReadLiteral(s, NULL, TNull)
    else if s[0] == 0x2d || IsDigit(s[0]) then
      var (n, rest) :- ReadNumber(s);
      Got(TNum(n), rest)
    else Bad(Malformed)
  }

  // After the opening bracket.
  function ReadArray(s: Text): (p: Parsed<Tree>)
    ensures p.Got? ==> |p.rest| < |s|
    ensures p.Bad? ==> p.error == Malformed
    decreases |s|, 3
  {
    var t := SkipWs(s);
    if Starts(t, 0x5d) then Got(TArr([]), t[1..])
    else
      var (items, rest) :- ReadItems(t);
      Got(TArr(items), rest)
  }

  // After the opening brace.
  function ReadObject(s: Text): (p: Parsed<Tree>)
    ensures p.Got? ==> |p.rest| < |s|
    ensures p.Bad? ==> p.error == Malformed
    decreases |s|, 3
  {
    var t := SkipWs(s);
    if Starts(t, 0x7d) then Got(TObj([]), t[1..])
    else
      var (members, rest) :- ReadMembers(t);
      Got(TObj(members), rest)
  }

  // The items of a non-empty array, through its closing bracket.
  function ReadItems(s: Text): (p: Parsed<seq<Tree>>)
    ensures p.Got? ==> |p.rest| < |s|
    ensures p.Bad? ==> p.error == Malformed
    decreases |s|, 2
  {
    var (item, t) :- ReadTree(s);
    var u := SkipWs(t);
    if Starts(u, 0x2c) then
      var (items, rest) :- ReadItems(u[1..]);
      Got([item] + items, rest)
    else if Starts(u, 0x5d) then Got([item], u[1..])
    else Bad(Malformed)
  }

  // The members of a non-empty object, through its closing brace.
  function ReadMembers(s: Text): (p: Parsed<seq<Member>>)
    ensures p.Got? ==> |p.rest| < |s|
    ensures p.Bad? ==> p.error == Malformed
    decreases |s|, 2
  {
    var (key, t) :- ReadString(SkipWs(s));
    var u := SkipWs(t);
    if !Starts(u, 0x3a) then Bad(Malformed)
    else
      var (value, w) :- ReadTree(u[1..]);
      var x := SkipWs(w);
      if Starts(x, 0x2c) then
        var (members, rest) :- ReadMembers(x[1..]);
        Got([Member(key, value)] + members, rest)
      else if Starts(x, 0x7d) then Got([Member(key, value)], x[1..])
      else Bad(Malformed)
  }

  // A whole text: one value with nothing but white space around it.
  function ReadText(s: Text): Parsed<Tree> {
    var (tree, rest) :- ReadTree(SkipWs(s));
    if SkipWs(rest) == [] then Got(tree, []) else Bad(Malformed)
  }
}
