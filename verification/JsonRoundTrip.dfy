// Printing then parsing: canonical texts determine their values.
module JsonRoundTrip {
  import opened Base
  import opened JsonValue
  import opened JsonGrammar
  import opened StrictJson
  import opened CanonicalJson
  import JsonReference
  import Utf16Order

  // The syntax tree of a value's canonical text: members in key order.
  ghost function TreeOf(v: Json): Tree
    decreases v
  {
    match v
    case Null => TNull
    case Bool(b) => TBool(b)
    case Num(n) => TNum(n)
    case BigInt(i) => TNum(Finite(i as real))
    case Str(s) => TStr(s)
    case Arr(_) => TArr(TreesFrom(v, 0))
    case Obj(m) => TObj(MembersFrom(v, Utf16Order.SortedKeys(m.Keys), 0))
    case Exotic => TNull
  }

  ghost function TreesFrom(v: Json, i: nat): (ts: seq<Tree>)
    requires v.Arr? && i <= |v.items|
    ensures |ts| == |v.items| - i
    decreases v, |v.items| - i
  {
    if i == |v.items| then [] else [TreeOf(v.items[i])] + TreesFrom(v, i + 1)
  }

  ghost function MembersFrom(v: Json, ks: seq<Text>, i: nat): (ms: seq<Member>)
    requires v.Obj? && (forall k :: k in ks ==> k in v.members) && i <= |ks|
    ensures |ms| == |ks| - i
    ensures forall j :: 0 <= j < |ms| ==> ms[j].key == ks[i + j]
    decreases v, |ks| - i
  {
    if i == |ks| then [] else [Member(ks[i], TreeOf(v.members[ks[i]]))] + MembersFrom(v, ks, i + 1)
  }

  // What may follow a value in a text: nothing that would prolong a number.
  ghost predicate Delimited(rest: Text) {
    rest != [] ==> !IsDigit(rest[0]) && rest[0] != 0x2e && rest[0] != 0x65 && rest[0] != 0x45
  }

  // ---------- numbers ----------

  ghost predicate AllDigits(s: Text) {
    forall i :: 0 <= i < |s| ==> IsDigit(s[i])
  }

  lemma {:induction false} DigitsDecode(n: nat)
    ensures Digits(n) != [] && AllDigits(Digits(n))
    ensures DecimalValue(Digits(n)) == n
    ensures n > 0 ==> Digits(n)[0] != 0x30
  {
    if n >= 10 {
      DigitsDecode(n / 10);
      var ds := Digits(n);
      assert ds[..|ds| - 1] == Digits(n / 10);
    } else {
      assert Digits(n)[..0] == [];
    }
  }

  lemma {:induction false} DigitRunExact(ds: Text, rest: Text)
    requires AllDigits(ds)
    requires rest != [] ==> !IsDigit(rest[0])
    ensures DigitRun(ds + rest) == |ds|
  {
    if ds != [] {
      assert (ds + rest)[1..] == ds[1..] + rest;
      DigitRunExact(ds[1..], rest);
    } else {
      assert ds + rest == rest;
    }
  }

  lemma WholeDecodes(n: nat, rest: Text)
    requires Delimited(rest)
    ensures ReadWhole(Digits(n) + rest) == Got(Digits(n), rest)
  {
    DigitsDecode(n);
    DigitRunExact(Digits(n), rest);
    assert (Digits(n) + rest)[..|Digits(n)|] == Digits(n);
    assert (Digits(n) + rest)[|Digits(n)|..] == rest;
  }

  lemma IntegerLiteral(negative: bool, n: nat)
    requires n <= MAX_SAFE && (negative ==> n > 0)
    ensures ToNumber(Literal(negative, Digits(n), [], false, [])) == Finite(if negative then -(n as real) else n as real)
  {
    DigitsDecode(n);
    var literal := Literal(negative, Digits(n), [], false, []);
    assert Magnitude(literal) == n as real;
    assert n as real <= 9007199254740991.0 < OVERFLOW;
  }

  lemma NumberDecodes(i: int, rest: Text)
    requires Safe(i) && Delimited(rest)
    ensures ReadNumber(Decimal(i) + rest) == Got(Finite(i as real), rest)
  {
    hide ToNumber, ReadLiteralParts;
    var n: nat := if i < 0 then -i else i;
    PartsDecode(i, n, rest);
    IntegerLiteral(i < 0, n);
  }

  lemma PartsDecode(i: int, n: nat, rest: Text)
    requires n == if i < 0 then -i else i
    requires Delimited(rest)
    ensures ReadLiteralParts(Decimal(i) + rest) == Got(Literal(i < 0, Digits(n), [], false, []), rest)
  {
    hide DecimalValue;
    var s := Decimal(i) + rest;
    DigitsDecode(n);
    WholeDecodes(n, rest);
    if i < 0 {
      assert s[1..] == Digits(n) + rest;
    } else {
      assert s == Digits(n) + rest;
      assert IsDigit(s[0]);
    }
    assert ReadFraction(rest) == Got([], rest);
    assert ReadExponent(rest) == Got((false, []), rest);
  }

  // ---------- strings ----------

  lemma UnitDecodes(c: Unit, rest: Text)
    ensures EscapeUnit(c)[0] != 0x22
    ensures ReadChar(EscapeUnit(c) + rest) == Got(c, rest)
  {
    var s := EscapeUnit(c) + rest;
    assert s[|EscapeUnit(c)|..] == rest;
    if s[0] == 0x5c {
      assert s[1..] == EscapeUnit(c)[1..] + rest;
      if |EscapeUnit(c)| == 6 {
        assert s[1..][1..5] == [0x30, 0x30, HexDigit(c / 16), HexDigit(c % 16)];
        assert s[1..][5..] == rest;
      } else {
        assert s[1..][1..] == rest;
      }
    } else {
      assert s[1..] == rest;
    }
  }

  lemma {:induction false} CharsDecode(s: Text, rest: Text)
    ensures ReadChars(Escape(s) + (QUOTE + rest)) == Got(s, rest)
  {
    if s == [] {
      assert Escape(s) + (QUOTE + rest) == QUOTE + rest;
      assert (QUOTE + rest)[1..] == rest;
    } else {
      var more := Escape(s[1..]) + (QUOTE + rest);
      var p := EscapeUnit(s[0]) + more;
      AppendAssoc(EscapeUnit(s[0]), Escape(s[1..]), QUOTE + rest);
      UnitDecodes(s[0], more);
      CharsDecode(s[1..], rest);
      assert p[0] == EscapeUnit(s[0])[0];
      assert ReadChars(p) == Got([s[0]] + s[1..], rest);
      assert [s[0]] + s[1..] == s;
    }
  }

  lemma StringDecodes(s: Text, rest: Text)
    requires WellFormed(s)
    ensures ReadString(PrintString(s).value + rest) == Got(s, rest)
    ensures SkipWs(PrintString(s).value + rest) == PrintString(s).value + rest
  {
    var p := PrintString(s).value + rest;
    assert p[1..] == Escape(s) + (QUOTE + rest);
    CharsDecode(s, rest);
  }

  // ---------- values ----------

  lemma LiteralDecodes<T>(word: Text, value: T, rest: Text)
    ensures ReadLiteral(word + rest, word, value) == Got(value, rest)
  {
    assert (word + rest)[|word|..] == rest;
  }

  // A value's text starts with a unit that is neither white space nor a bracket that closes.
  lemma TextStarts(v: Json)
    requires PrintValue(v).Ok?
    ensures var p := PrintValue(v).value;
      p != [] && !IsWs(p[0]) && p[0] != 0x5d && p[0] != 0x7d
  {
    match v
    case Num(n) => DigitsDecode(if n.r.Floor < 0 then -n.r.Floor else n.r.Floor);
    case BigInt(i) => DigitsDecode(if i < 0 then -i else i);
    case _ =>
  }

  lemma {:induction false} ValueDecodes(v: Json, rest: Text)
    requires PrintValue(v).Ok? && Delimited(rest)
    ensures ReadTree(PrintValue(v).value + rest) == Got(TreeOf(v), rest)
    decreases v
  {
    hide ReadNumber;
    var p := PrintValue(v).value;
    TextStarts(v);
    var s := p + rest;
    assert SkipWs(s) == s;
    match v
    case Null => LiteralDecodes(NULL, TNull, rest);
    case Bool(b) => LiteralDecodes(if b then TRUE else FALSE, TBool(b), rest);
    case Num(n) => NumberValueDecodes(n.r.Floor, rest);
    case BigInt(i) => NumberValueDecodes(i, rest);
    case Str(t) => StringDecodes(t, rest);
    case Arr(_) => ArrayDecodes(v, rest);
    case Obj(_) => ObjectDecodes(v, rest);
  }

  lemma NumberValueDecodes(i: int, rest: Text)
    requires Safe(i) && Delimited(rest)
    ensures ReadTree(Decimal(i) + rest) == Got(TNum(Finite(i as real)), rest)
  {
    hide ReadNumber;
    NumberDecodes(i, rest);
    DigitsDecode(if i < 0 then -i else i);
    ReadTreeNumber(Decimal(i) + rest);
  }

  // ReadTree unfolded on the first unit of its text.
  lemma ReadTreeNumber(s: Text)
    requires s != [] && (s[0] == 0x2d || IsDigit(s[0])) && ReadNumber(s).Got?
    ensures ReadTree(s) == Got(TNum(ReadNumber(s).value), ReadNumber(s).rest)
  {
    hide ReadNumber;
    assert SkipWs(s) == s;
  }

  lemma ReadTreeArray(t: Text)
    ensures ReadTree(OPEN_ARRAY + t) == ReadArray(t)
  {
    hide ReadNumber;
    var s := OPEN_ARRAY + t;
    assert SkipWs(s) == s && s[1..] == t;
  }

  lemma ReadTreeObject(t: Text)
    ensures ReadTree(OPEN_OBJECT + t) == ReadObject(t)
  {
    hide ReadNumber;
    var s := OPEN_OBJECT + t;
    assert SkipWs(s) == s && s[1..] == t;
  }

  lemma {:induction false} ArrayDecodes(v: Json, rest: Text)
    requires v.Arr? && PrintValue(v).Ok?
    ensures ReadTree(PrintValue(v).value + rest) == Got(TreeOf(v), rest)
    decreases v, |v.items| + 1
  {
    hide ReadTree, ReadItems;
    var body := PrintItems(v, 0).value;
    var t := body + (CLOSE_ARRAY + rest);
    assert PrintValue(v).value + rest == OPEN_ARRAY + t;
    ReadTreeArray(t);
    if v.items == [] {
      assert t == CLOSE_ARRAY + rest;
      assert t[1..] == rest;
    } else {
      TextStarts(v.items[0]);
      ItemsDecode(v, 0, rest);
      assert t == ItemsText(v, 0) + (CLOSE_ARRAY + rest);
      assert t[0] == PrintValue(v.items[0]).value[0];
    }
    assert SkipWs(t) == t;
  }

  // The text of the items from `i` on, without the separator in front.
  ghost function ItemsText(v: Json, i: nat): Text
    requires v.Arr? && i < |v.items| && PrintItems(v, i).Ok?
  {
    PrintValue(v.items[i]).value + PrintItems(v, i + 1).value
  }

  lemma ItemsTextPrinted(v: Json, i: nat)
    requires v.Arr? && i < |v.items| && PrintItems(v, i).Ok?
    ensures PrintItems(v, i).value == Separator(i) + ItemsText(v, i)
  {
    AppendAssoc(Separator(i), PrintValue(v.items[i]).value, PrintItems(v, i + 1).value);
  }

  lemma {:induction false} ItemsDecode(v: Json, i: nat, rest: Text)
    requires v.Arr? && i < |v.items| && PrintItems(v, i).Ok?
    ensures PrintItems(v, i).value == Separator(i) + ItemsText(v, i)
    ensures ReadItems(ItemsText(v, i) + (CLOSE_ARRAY + rest)) == Got(TreesFrom(v, i), rest)
    decreases v, |v.items| - i
  {
    hide ReadTree, ReadItems;
    ItemsTextPrinted(v, i);
    var head := PrintValue(v.items[i]).value;
    var tail := PrintItems(v, i + 1).value;
    var more := tail + (CLOSE_ARRAY + rest);
    var item := TreeOf(v.items[i]);
    AppendAssoc(head, tail, CLOSE_ARRAY + rest);
    if i + 1 == |v.items| {
      assert more == CLOSE_ARRAY + rest;
      assert more[1..] == rest;
      ValueDecodes(v.items[i], more);
      ReadItemsStep(head + more, item, more);
      assert TreesFrom(v, i) == [item];
    } else {
      ItemsDecode(v, i + 1, rest);
      assert more == COMMA + (ItemsText(v, i + 1) + (CLOSE_ARRAY + rest));
      assert more[1..] == ItemsText(v, i + 1) + (CLOSE_ARRAY + rest);
      ValueDecodes(v.items[i], more);
      ReadItemsStep(head + more, item, more);
      assert TreesFrom(v, i) == [item] + TreesFrom(v, i + 1);
    }
  }

  // ReadItems unfolded once its first item has been read.
  lemma ReadItemsStep(s: Text, item: Tree, t: Text)
    requires ReadTree(s) == Got(item, t) && SkipWs(t) == t
    ensures Starts(t, 0x2c) && ReadItems(t[1..]).Got? ==>
      ReadItems(s) == Got([item] + ReadItems(t[1..]).value, ReadItems(t[1..]).rest)
    ensures Starts(t, 0x5d) ==> ReadItems(s) == Got([item], t[1..])
  {
    hide ReadNumber;
  }

  lemma {:induction false} ObjectDecodes(v: Json, rest: Text)
    requires v.Obj? && PrintValue(v).Ok?
    ensures ReadTree(PrintValue(v).value + rest) == Got(TreeOf(v), rest)
    decreases v, |v.members| + 2
  {
    hide ReadTree, ReadMembers;
    var ks := Utf16Order.SortedKeys(v.members.Keys);
    var t := PrintMembers(v, ks, 0).value + (CLOSE_OBJECT + rest);
    assert PrintValue(v).value + rest == OPEN_OBJECT + t;
    ReadTreeObject(t);
    ObjectBodyDecodes(v, ks, rest);
  }

  lemma {:induction false} ObjectBodyDecodes(v: Json, ks: seq<Text>, rest: Text)
    requires v.Obj? && ks == Utf16Order.SortedKeys(v.members.Keys) && PrintMembers(v, ks, 0).Ok?
    ensures ReadObject(PrintMembers(v, ks, 0).value + (CLOSE_OBJECT + rest)) == Got(TObj(MembersFrom(v, ks, 0)), rest)
    decreases v, |v.members| + 1
  {
    hide ReadTree, ReadMembers;
    var t := PrintMembers(v, ks, 0).value + (CLOSE_OBJECT + rest);
    if ks == [] {
      assert t == CLOSE_OBJECT + rest;
      assert t[1..] == rest;
    } else {
      KeysWithin(ks, v.members.Keys);
      MembersDecode(v, ks, 0, rest);
      assert t == MembersText(v, ks, 0) + (CLOSE_OBJECT + rest);
      assert t[0] == 0x22;
    }
    assert SkipWs(t) == t;
  }

  lemma {:induction false} KeysWithin(ks: seq<Text>, s: set<Text>)
    requires Utf16Order.Lists(ks, s)
    ensures |ks| == |s|
  {
    if ks != [] {
      Utf16Order.AscendingTail(ks, s);
      KeysWithin(ks[1..], s - {ks[0]});
      assert ks[0] in s;
    } else {
      assert s == {};
    }
  }

  ghost function MembersText(v: Json, ks: seq<Text>, i: nat): Text
    requires v.Obj? && (forall k :: k in ks ==> k in v.members) && i < |ks| && PrintMembers(v, ks, i).Ok?
  {
    PrintMember(v, ks[i]).value + PrintMembers(v, ks, i + 1).value
  }

  lemma MembersTextPrinted(v: Json, ks: seq<Text>, i: nat)
    requires v.Obj? && (forall k :: k in ks ==> k in v.members) && i < |ks| && PrintMembers(v, ks, i).Ok?
    ensures PrintMembers(v, ks, i).value == Separator(i) + MembersText(v, ks, i)
    ensures MembersText(v, ks, i) != [] && MembersText(v, ks, i)[0] == 0x22
  {
    AppendAssoc(Separator(i), PrintMember(v, ks[i]).value, PrintMembers(v, ks, i + 1).value);
  }

  lemma {:induction false} MembersDecode(v: Json, ks: seq<Text>, i: nat, rest: Text)
    requires v.Obj? && (forall k :: k in ks ==> k in v.members) && i < |ks| && PrintMembers(v, ks, i).Ok?
    requires |ks| <= |v.members|
    ensures PrintMembers(v, ks, i).value == Separator(i) + MembersText(v, ks, i)
    ensures MembersText(v, ks, i) != [] && MembersText(v, ks, i)[0] == 0x22
    ensures ReadMembers(MembersText(v, ks, i) + (CLOSE_OBJECT + rest)) == Got(MembersFrom(v, ks, i), rest)
    decreases v, |ks| - i
  {
    hide ReadTree, ReadString, ReadMembers;
    MembersTextPrinted(v, ks, i);
    var head := PrintMember(v, ks[i]).value;
    var tail := PrintMembers(v, ks, i + 1).value;
    var more := tail + (CLOSE_OBJECT + rest);
    var value := PrintValue(v.members[ks[i]]).value + more;
    var tree := TreeOf(v.members[ks[i]]);
    AppendAssoc(head, tail, CLOSE_OBJECT + rest);
    MemberDecodes(v, ks[i], more);
    if i + 1 == |ks| {
      assert more == CLOSE_OBJECT + rest;
      assert more[1..] == rest;
      ValueDecodes(v.members[ks[i]], more);
      ReadMembersStep(head + more, ks[i], COLON + value, tree, more);
      assert MembersFrom(v, ks, i) == [Member(ks[i], tree)];
    } else {
      MembersDecode(v, ks, i + 1, rest);
      assert more == COMMA + (MembersText(v, ks, i + 1) + (CLOSE_OBJECT + rest));
      assert more[1..] == MembersText(v, ks, i + 1) + (CLOSE_OBJECT + rest);
      ValueDecodes(v.members[ks[i]], more);
      ReadMembersStep(head + more, ks[i], COLON + value, tree, more);
      assert MembersFrom(v, ks, i) == [Member(ks[i], tree)] + MembersFrom(v, ks, i + 1);
    }
  }

  // ReadMembers unfolded once its first member has been read.
  lemma ReadMembersStep(s: Text, key: Text, u: Text, value: Tree, t: Text)
    requires SkipWs(s) == s && ReadString(s) == Got(key, u)
    requires SkipWs(u) == u && Starts(u, 0x3a) && ReadTree(u[1..]) == Got(value, t) && SkipWs(t) == t
    ensures Starts(t, 0x2c) && ReadMembers(t[1..]).Got? ==>
      ReadMembers(s) == Got([Member(key, value)] + ReadMembers(t[1..]).value, ReadMembers(t[1..]).rest)
    ensures Starts(t, 0x7d) ==> ReadMembers(s) == Got([Member(key, value)], t[1..])
  {
    hide ReadNumber;
  }

  // Reading the key and the colon of one printed member.
  lemma MemberDecodes(v: Json, k: Text, more: Text)
    requires v.Obj? && k in v.members && PrintMember(v, k).Ok?
    ensures
      var s := PrintMember(v, k).value + more;
      var value := PrintValue(v.members[k]).value + more;
      && SkipWs(s) == s
      && ReadString(s) == Got(k, COLON + value)
      && SkipWs(COLON + value) == COLON + value
      && (COLON + value)[1..] == value
  {
    var value := PrintValue(v.members[k]).value + more;
    assert PrintMember(v, k).value + more == PrintString(k).value + (COLON + value);
    StringDecodes(k, COLON + value);
  }

  // ---------- what the tree stands for ----------

  lemma {:induction false} TreeNoRepeats(v: Json)
    ensures JsonReference.NoRepeats(TreeOf(v))
    decreases v
  {
    match v
    case Arr(_) => TreesNoRepeats(v, 0);
    case Obj(m) =>
      var ks := Utf16Order.SortedKeys(m.Keys);
      MembersNoRepeats(v, ks, 0);
      Utf16Order.AscendingDistinct(ks);
      var ms := MembersFrom(v, ks, 0);
      assert forall i, j :: 0 <= i < j < |ms| ==> ms[i].key != ms[j].key;
    case _ =>
  }

  lemma {:induction false} TreesNoRepeats(v: Json, i: nat)
    requires v.Arr? && i <= |v.items|
    ensures forall j :: 0 <= j < |TreesFrom(v, i)| ==> JsonReference.NoRepeats(TreesFrom(v, i)[j])
    decreases v, |v.items| - i
  {
    if i < |v.items| {
      TreeNoRepeats(v.items[i]);
      TreesNoRepeats(v, i + 1);
    }
  }

  lemma {:induction false} MembersNoRepeats(v: Json, ks: seq<Text>, i: nat)
    requires v.Obj? && (forall k :: k in ks ==> k in v.members) && i <= |ks|
    ensures forall j :: 0 <= j < |MembersFrom(v, ks, i)| ==>
      JsonReference.NoRepeats(MembersFrom(v, ks, i)[j].value)
    decreases v, |ks| - i
  {
    if i < |ks| {
      TreeNoRepeats(v.members[ks[i]]);
      MembersNoRepeats(v, ks, i + 1);
    }
  }

  // What strictParse keeps of a value printed canonically.
  ghost function Kept(v: Json): Json {
    WithoutProto(Numeric(v))
  }

  lemma KeptArr(v: Json)
    requires v.Arr?
    ensures Kept(v).Arr? && |Kept(v).items| == |v.items|
    ensures forall i :: 0 <= i < |v.items| ==> Kept(v).items[i] == Kept(v.items[i])
  {
  }

  lemma KeptObj(v: Json)
    requires v.Obj?
    ensures Kept(v).Obj? && Kept(v).members.Keys == set k | k in v.members && k != PROTO
    ensures forall k :: k in Kept(v).members ==> Kept(v).members[k] == Kept(v.members[k])
  {
    assert forall k :: k in v.members <==> k in Numeric(v).members;
  }

  // The strict parser reads the tree as the value without its __proto__ properties.
  lemma {:induction false} TreeEvaluates(v: Json)
    requires Expressible(v)
    ensures JsonReference.Eval(TreeOf(v)) == Kept(v)
    decreases v
  {
    match v
    case Arr(items) =>
      KeptArr(v);
      TreesEvaluate(v, 0);
      assert JsonReference.EvalItems(TreesFrom(v, 0)) == Kept(v).items;
    case Obj(m) => ObjectEvaluates(v);
    case _ =>
  }

  // `out` holds what is kept of the first `i` members.
  ghost predicate KeepsFirst(v: Json, ks: seq<Text>, i: nat, out: map<Text, Json>)
    requires v.Obj? && (forall k :: k in ks ==> k in v.members) && i <= |ks|
  {
    && (forall k :: k in out <==> k in ks[..i] && k != PROTO)
    && (forall k :: k in out ==> out[k] == Kept(v.members[k]))
  }

  lemma KeepsStep(v: Json, ks: seq<Text>, i: nat, out: map<Text, Json>)
    requires v.Obj? && (forall k :: k in ks ==> k in v.members) && i < |ks|
    requires KeepsFirst(v, ks, i, out)
    ensures KeepsFirst(v, ks, i + 1, Assign(out, ks[i], Kept(v.members[ks[i]])))
  {
    assert ks[..i + 1] == ks[..i] + [ks[i]];
  }

  lemma KeepsAll(v: Json, ks: seq<Text>, out: map<Text, Json>)
    requires v.Obj? && (forall k :: k in ks <==> k in v.members)
    requires KeepsFirst(v, ks, |ks|, out)
    ensures Kept(v) == Obj(out)
  {
    assert ks[..|ks|] == ks;
    KeptObj(v);
    assert Kept(v).members == out;
  }

  lemma {:induction false} ObjectEvaluates(v: Json)
    requires v.Obj? && Expressible(v)
    ensures JsonReference.Eval(TreeOf(v)) == Kept(v)
    decreases v, |v.members| + 1
  {
    hide Kept;
    var ks := Utf16Order.SortedKeys(v.members.Keys);
    var none: map<Text, Json> := map[];
    KeysWithin(ks, v.members.Keys);
    MembersEvaluate(v, ks, 0, none);
    KeepsAll(v, ks, JsonReference.EvalMembers(none, MembersFrom(v, ks, 0)));
  }

  lemma {:induction false} TreesEvaluate(v: Json, i: nat)
    requires v.Arr? && Expressible(v) && i <= |v.items|
    ensures Kept(v).Arr? && |Kept(v).items| == |v.items|
    ensures JsonReference.EvalItems(TreesFrom(v, i)) == Kept(v).items[i..]
    decreases v, |v.items| - i
  {
    hide Kept, JsonReference.Eval, JsonReference.EvalItems, TreeOf;
    KeptArr(v);
    EvalCons(TNull, []);
    if i < |v.items| {
      TreeEvaluates(v.items[i]);
      TreesEvaluate(v, i + 1);
      EvalCons(TreeOf(v.items[i]), TreesFrom(v, i + 1));
      assert Kept(v).items[i..] == [Kept(v.items[i])] + Kept(v).items[i + 1..];
    }
  }

  lemma EvalCons(t: Tree, ts: seq<Tree>)
    ensures JsonReference.EvalItems([]) == []
    ensures JsonReference.EvalItems([t] + ts) == [JsonReference.Eval(t)] + JsonReference.EvalItems(ts)
  {
    assert ([t] + ts)[1..] == ts;
  }

  lemma {:induction false} MembersEvaluate(v: Json, ks: seq<Text>, i: nat, out: map<Text, Json>)
    requires v.Obj? && Expressible(v) && (forall k :: k in ks ==> k in v.members) && i <= |ks| <= |v.members|
    requires KeepsFirst(v, ks, i, out)
    ensures KeepsFirst(v, ks, |ks|, JsonReference.EvalMembers(out, MembersFrom(v, ks, i)))
    decreases v, |ks| - i
  {
    hide Kept, KeepsFirst;
    if i < |ks| {
      TreeEvaluates(v.members[ks[i]]);
      KeepsStep(v, ks, i, out);
      assert MembersFrom(v, ks, i)[1..] == MembersFrom(v, ks, i + 1);
      MembersEvaluate(v, ks, i + 1, Assign(out, ks[i], Kept(v.members[ks[i]])));
    }
  }

  // A last-wins parser reads the tree as the value itself, bigints read as numbers.
  lemma {:induction false} TreeLastWins(v: Json)
    requires Expressible(v)
    ensures JsonReference.LastWins(TreeOf(v)) == Numeric(v)
    decreases v
  {
    match v
    case Arr(items) =>
      forall i | 0 <= i < |items| ensures JsonReference.LastWins(TreesFrom(v, 0)[i]) == Numeric(items[i]) {
        TreeLastWins(items[i]);
        TreesFromAt(v, 0, i);
      }
      assert JsonReference.LastWins(TreeOf(v)).items == Numeric(v).items;
    case Obj(m) =>
      forall k | k in m ensures JsonReference.LastWins(TreeOf(m[k])) == Numeric(m[k]) {
        TreeLastWins(m[k]);
      }
      ObjectLastWins(v);
    case _ =>
  }

  lemma MemberLastWins(v: Json, ks: seq<Text>, k: Text)
    requires v.Obj? && ks == Utf16Order.SortedKeys(v.members.Keys) && k in v.members
    requires JsonReference.LastWins(TreeOf(v.members[k])) == Numeric(v.members[k])
    ensures var r := JsonReference.LastWinsMembers(MembersFrom(v, ks, 0));
      k in r && r[k] == Numeric(v.members[k])
  {
    hide JsonReference.LastWinsMembers, JsonReference.LastWins, Numeric, TreeOf;
    var ms := MembersFrom(v, ks, 0);
    Utf16Order.AscendingDistinct(ks);
    assert k in ks;
    var i :| 0 <= i < |ks| && ks[i] == k;
    MembersFromAt(v, ks, 0, i);
    assert ms[i].key == k;
    JsonReference.LastWinsHolds(ms, i);
  }

  lemma NumericObj(v: Json)
    requires v.Obj?
    ensures Numeric(v).Obj? && Numeric(v).members.Keys == v.members.Keys
    ensures forall k :: k in v.members ==> Numeric(v).members[k] == Numeric(v.members[k])
  {
  }

  lemma ObjectLastWins(v: Json)
    requires v.Obj?
    requires forall k :: k in v.members ==> JsonReference.LastWins(TreeOf(v.members[k])) == Numeric(v.members[k])
    ensures JsonReference.LastWins(TreeOf(v)) == Numeric(v)
  {
    hide JsonReference.LastWinsMembers, JsonReference.LastWins, Numeric, MembersFrom, TreeOf;
    var ks := Utf16Order.SortedKeys(v.members.Keys);
    var r := JsonReference.LastWinsMembers(MembersFrom(v, ks, 0));
    LastWinsObj(v);
    NumericObj(v);
    MembersLastWinsWithin(v, ks);
    forall k | k in v.members ensures k in r && r[k] == Numeric(v.members[k]) {
      MemberLastWins(v, ks, k);
    }
    assert r == Numeric(v).members;
  }

  lemma LastWinsObj(v: Json)
    requires v.Obj?
    ensures JsonReference.LastWins(TreeOf(v)) ==
      Obj(JsonReference.LastWinsMembers(MembersFrom(v, Utf16Order.SortedKeys(v.members.Keys), 0)))
  {
  }

  lemma MembersLastWinsWithin(v: Json, ks: seq<Text>)
    requires v.Obj? && ks == Utf16Order.SortedKeys(v.members.Keys)
    ensures forall k :: k in JsonReference.LastWinsMembers(MembersFrom(v, ks, 0)) ==> k in v.members
  {
    hide JsonReference.LastWinsMembers, JsonReference.LastWins, TreeOf;
    var ms := MembersFrom(v, ks, 0);
    LastWinsKeys(ms);
    forall k | k in JsonReference.LastWinsMembers(ms) ensures k in v.members {
      var i :| 0 <= i < |ms| && ms[i].key == k;
      assert ks[i] in ks;
    }
  }

  lemma {:induction false} TreesFromAt(v: Json, i: nat, j: nat)
    requires v.Arr? && i <= j < |v.items|
    ensures TreesFrom(v, i)[j - i] == TreeOf(v.items[j])
    decreases v, |v.items| - i
  {
    if i < j {
      TreesFromAt(v, i + 1, j);
    }
  }

  lemma {:induction false} MembersFromAt(v: Json, ks: seq<Text>, i: nat, j: nat)
    requires v.Obj? && (forall k :: k in ks ==> k in v.members) && i <= j < |ks|
    ensures MembersFrom(v, ks, i)[j - i] == Member(ks[j], TreeOf(v.members[ks[j]]))
    decreases |ks| - i
  {
    if i < j {
      MembersFromAt(v, ks, i + 1, j);
    }
  }

  lemma {:induction false} LastWinsKeys(members: seq<Member>)
    ensures forall k :: k in JsonReference.LastWinsMembers(members) ==>
      exists i :: 0 <= i < |members| && members[i].key == k
  {
    if members != [] {
      var front := members[..|members| - 1];
      LastWinsKeys(front);
      forall k | k in JsonReference.LastWinsMembers(members)
        ensures exists i :: 0 <= i < |members| && members[i].key == k
      {
        if k == members[|members| - 1].key {
          assert 0 <= |members| - 1 < |members|;
        } else {
          assert k in JsonReference.LastWinsMembers(front);
          var i :| 0 <= i < |front| && front[i].key == k;
          assert members[i].key == k;
        }
      }
    }
  }

  lemma {:induction false} NumericPrints(v: Json)
    requires Expressible(v)
    ensures PrintValue(Numeric(v)) == PrintValue(v)
    decreases v
  {
    match v
    case Arr(_) => NumericPrintsItems(v, 0);
    case Obj(m) =>
      assert Numeric(v).members.Keys == m.Keys;
      var ks := Utf16Order.SortedKeys(m.Keys);
      KeysWithin(ks, m.Keys);
      NumericPrintsMembers(v, ks, 0);
    case _ =>
  }

  lemma {:induction false} NumericPrintsItems(v: Json, i: nat)
    requires v.Arr? && Expressible(v) && i <= |v.items|
    ensures PrintItems(Numeric(v), i) == PrintItems(v, i)
    decreases v, |v.items| - i
  {
    if i < |v.items| {
      NumericPrints(v.items[i]);
      NumericPrintsItems(v, i + 1);
    }
  }

  lemma {:induction false} NumericPrintsMembers(v: Json, ks: seq<Text>, i: nat)
    requires v.Obj? && Expressible(v) && (forall k :: k in ks ==> k in v.members) && i <= |ks| <= |v.members|
    ensures PrintMembers(Numeric(v), ks, i) == PrintMembers(v, ks, i)
    decreases v, |ks| - i
  {
    if i < |ks| {
      NumericPrints(v.members[ks[i]]);
      NumericPrintsMembers(v, ks, i + 1);
      assert PrintMember(Numeric(v), ks[i]) == PrintMember(v, ks[i]);
    }
  }

  // ---------- main results ----------

  // The canonical text of a value is a JSON text whose syntax tree lists the members of
  // every object once, in key order.
  lemma CanonicalReads(v: Json)
    requires Canonical(v).Ok?
    ensures ReadText(Canonical(v).value) == Got(TreeOf(v), [])
  {
    var p := Canonical(v).value;
    assert SkipWs(p) == p && p + [] == p;
    ValueDecodes(v, []);
  }

  // Parsing a canonical text gives back the value printed, up to __proto__ properties (which
  // the parser cannot keep) and bigints (which come back as numbers).
  lemma RoundTrip(v: Json)
    requires Canonical(v).Ok?
    ensures TextOf(Canonical(v).value) == Ok(WithoutProto(Numeric(v)))
  {
    hide ReadTree, ValueOf;
    var p := Canonical(v).value;
    assert SkipWs(p) == p && p + [] == p;
    ValueDecodes(v, []);
    JsonReference.ValueFollows(p);
    TreeNoRepeats(v);
    JsonReference.FirstRepeatSound(TreeOf(v));
    PrintsExactlyExpressible(v);
    TreeEvaluates(v);
  }

  // So the very same value comes back exactly when it has neither.
  lemma RoundTripExactly(v: Json)
    requires Canonical(v).Ok?
    ensures TextOf(Canonical(v).value) == Ok(v) <==> NoProto(v) && NoBigInt(v)
  {
    RoundTrip(v);
    NumericFixed(v);
    WithoutProtoFixed(v);
    if TextOf(Canonical(v).value) == Ok(v) {
      CanonicalReads(v);
      JsonReference.ValueFollows(SkipWs(Canonical(v).value));
      TreeNoRepeats(v);
      JsonReference.FirstRepeatSound(TreeOf(v));
      JsonReference.EvalClean(TreeOf(v));
    }
  }

  // Equal canonical texts come from equal values, __proto__ properties included.
  lemma CanonicalInjective(v: Json, w: Json)
    requires Canonical(v).Ok? && Canonical(v) == Canonical(w)
    ensures Numeric(v) == Numeric(w)
    ensures NoBigInt(v) && NoBigInt(w) ==> v == w
  {
    CanonicalReads(v);
    CanonicalReads(w);
    PrintsExactlyExpressible(v);
    PrintsExactlyExpressible(w);
    TreeLastWins(v);
    TreeLastWins(w);
    NumericFixed(v);
    NumericFixed(w);
  }

  // Parsing a canonical text and printing the result again changes nothing exactly when the
  // text was printed from a value without __proto__ properties.
  lemma Recanonicalize(v: Json)
    requires Canonical(v).Ok?
    ensures TextOf(Canonical(v).value).Ok?
    ensures Canonical(TextOf(Canonical(v).value).value) == Canonical(v) <==> NoProto(Numeric(v))
  {
    RoundTrip(v);
    PrintsExactlyExpressible(v);
    NumericPrints(v);
    WithoutProtoFixed(Numeric(v));
    var w := WithoutProto(Numeric(v));
    if Canonical(w) == Canonical(v) {
      CanonicalInjective(v, w);
      KeptNumeric(v);
    }
  }

  lemma {:induction false} KeptNumeric(v: Json)
    ensures Numeric(Kept(v)) == Kept(v)
  {
    match v
    case Arr(items) =>
      forall i | 0 <= i < |items| ensures Numeric(Kept(items[i])) == Kept(items[i]) {
        KeptNumeric(items[i]);
      }
      KeptArr(v);
      assert Numeric(Kept(v)).items == Kept(v).items;
    case Obj(m) =>
      forall k | k in m ensures Numeric(Kept(m[k])) == Kept(m[k]) {
        KeptNumeric(m[k]);
      }
      KeptObj(v);
      assert Numeric(Kept(v)).members == Kept(v).members;
    case _ =>
  }

  // The key that cannot come back: {"__proto__":null} parses as {}.
  lemma ProtoIsLost()
    ensures
      var v := Obj(map[PROTO := Null]);
      && Canonical(v).Ok?
      && TextOf(Canonical(v).value) == Ok(Obj(map[]))
  {
    hide PrintValue, TextOf;
    var v := Obj(map[PROTO := Null]);
    assert Expressible(v);
    PrintsExactlyExpressible(v);
    RoundTrip(v);
    assert WithoutProto(Numeric(v)).members == map[];
  }
}
