// Values as a TypeScript program holds them, and what canonical JSON can express.
module JsonValue {
  import opened Base

  // A JavaScript number. Finite values are exact reals: rounding to doubles is not modelled.
  datatype Number = NaN | Infinity(negative: bool) | NegativeZero | Finite(r: real)

  // Obj holds an object's own properties. Exotic stands for every value that is neither
  // JSON data nor a plain object (undefined, functions, dates, class instances).
  datatype Json =
    | Null
    | Bool(b: bool)
    | Num(n: Number)
    | BigInt(i: int)
    | Str(s: Text)
    | Arr(items: seq<Json>)
    | Obj(members: map<Text, Json>)
    | Exotic

  // The three literal names of JSON.
  const NULL: Text := [0x6e, 0x75, 0x6c, 0x6c]
  const TRUE: Text := [0x74, 0x72, 0x75, 0x65]
  const FALSE: Text := [0x66, 0x61, 0x6c, 0x73, 0x65]

  // Decimal magnitudes from here on round to Infinity: 2^1024 - 2^970.
  const OVERFLOW: real := 179769313486231580793728971405303415079934132710037826936173778980444968292764750946649017977587207096330286416692887910946555547851940402630657488671505820681908902000708383676273854845817711531764475730270069855571366959622842914819860834936475292719074168444365510704342711559699508093042880177904174497792.0

  // "__proto__": assigning this key on an object literal sets the prototype, it does not
  // create a property.
  const PROTO: Text := [0x5f, 0x5f, 0x70, 0x72, 0x6f, 0x74, 0x6f, 0x5f, 0x5f]

  predicate IsInteger(r: real) {
    r.Floor as real == r
  }

  predicate Safe(i: int) {
    -MAX_SAFE <= i <= MAX_SAFE
  }

  predicate High(c: Unit) {
    0xd800 <= c <= 0xdbff
  }

  predicate Low(c: Unit) {
    0xdc00 <= c <= 0xdfff
  }

  // Every surrogate is half of a pair.
  predicate WellFormed(s: Text) {
    if s == [] then true
    else if High(s[0]) then |s| > 1 && Low(s[1]) && WellFormed(s[2..])
    else !Low(s[0]) && WellFormed(s[1..])
  }

  // What the canonical form promises to express: null, booleans, safe integers, well-formed
  // strings, and arrays and objects of these.
  ghost predicate Expressible(v: Json) {
    match v
    case Null => true
    case Bool(_) => true
    case Num(n) => n.Finite? && IsInteger(n.r) && Safe(n.r.Floor)
    case BigInt(i) => Safe(i)
    case Str(s) => WellFormed(s)
    case Arr(items) => forall i :: 0 <= i < |items| ==> Expressible(items[i])
    case Obj(m) => forall k :: k in m ==> WellFormed(k) && Expressible(m[k])
    case Exotic => false
  }

  // The value with every bigint read as a number.
  ghost function Numeric(v: Json): Json {
    match v
    case BigInt(i) => Num(Finite(i as real))
    case Arr(items) => Arr(seq(|items|, i requires 0 <= i < |items| => Numeric(items[i])))
    case Obj(m) => Obj(map k | k in m :: Numeric(m[k]))
    case _ => v
  }

  // The value with every own property named __proto__ removed.
  ghost function WithoutProto(v: Json): Json {
    match v
    case Arr(items) => Arr(seq(|items|, i requires 0 <= i < |items| => WithoutProto(items[i])))
    case Obj(m) => Obj(map k | k in m && k != PROTO :: WithoutProto(m[k]))
    case _ => v
  }

  ghost predicate NoBigInt(v: Json) {
    match v
    case BigInt(_) => false
    case Arr(items) => forall i :: 0 <= i < |items| ==> NoBigInt(items[i])
    case Obj(m) => forall k :: k in m ==> NoBigInt(m[k])
    case _ => true
  }

  ghost predicate NoProto(v: Json) {
    match v
    case Arr(items) => forall i :: 0 <= i < |items| ==> NoProto(items[i])
    case Obj(m) => forall k :: k in m ==> k != PROTO && NoProto(m[k])
    case _ => true
  }

  lemma {:induction false} NumericFixed(v: Json)
    ensures Numeric(v) == v <==> NoBigInt(v)
  {
    match v
    case Arr(items) =>
      forall i | 0 <= i < |items| ensures Numeric(items[i]) == items[i] <==> NoBigInt(items[i]) {
        NumericFixed(items[i]);
      }
      if Numeric(v) == v {
        forall i | 0 <= i < |items| ensures NoBigInt(items[i]) {
          assert Numeric(v).items[i] == items[i];
        }
      }
    case Obj(m) =>
      forall k | k in m ensures Numeric(m[k]) == m[k] <==> NoBigInt(m[k]) {
        NumericFixed(m[k]);
      }
      if Numeric(v) == v {
        forall k | k in m ensures NoBigInt(m[k]) {
          assert Numeric(v).members[k] == m[k];
        }
      }
    case _ =>
  }

  lemma {:induction false} WithoutProtoFixed(v: Json)
    ensures WithoutProto(v) == v <==> NoProto(v)
  {
    match v
    case Arr(items) =>
      forall i | 0 <= i < |items| ensures WithoutProto(items[i]) == items[i] <==> NoProto(items[i]) {
        WithoutProtoFixed(items[i]);
      }
      if WithoutProto(v) == v {
        forall i | 0 <= i < |items| ensures NoProto(items[i]) {
          assert WithoutProto(v).items[i] == items[i];
        }
      }
    case Obj(m) =>
      forall k | k in m ensures WithoutProto(m[k]) == m[k] <==> NoProto(m[k]) {
        WithoutProtoFixed(m[k]);
      }
      if WithoutProto(v) == v {
        forall k | k in m ensures k != PROTO && NoProto(m[k]) {
          assert k in WithoutProto(v).members;
          assert WithoutProto(v).members[k] == m[k];
        }
      }
    case _ =>
  }
}
