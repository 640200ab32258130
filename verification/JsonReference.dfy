// The strict parser against a plain last-wins parser (what JSON.parse returns).
module JsonReference {
  import opened Base
  import opened JsonValue
  import opened JsonGrammar
  import opened StrictJson

  // ---------- the plain parser: of two equal keys the last one wins ----------

  ghost function LastWins(t: Tree): Json {
    match t
    case TNull => Null
    case TBool(b) => Bool(b)
    case TNum(n) => Num(n)
    case TStr(s) => Str(s)
    case TArr(items) => Arr(seq(|items|, i requires 0 <= i < |items| => LastWins(items[i])))
    case TObj(members) => Obj(LastWinsMembers(members))
  }

  ghost function LastWinsMembers(members: seq<Member>): map<Text, Json> {
    if members == [] then map[]
    else
      var last := members[|members| - 1];
      LastWinsMembers(members[..|members| - 1])[last.key := LastWins(last.value)]
  }

  // No object at any depth repeats a key. __proto__ is not a key the parser can see twice.
  ghost predicate NoRepeats(t: Tree) {
    match t
    case TArr(items) => forall i :: 0 <= i < |items| ==> NoRepeats(items[i])
    case TObj(members) =>
      && (forall i :: 0 <= i < |members| ==> NoRepeats(members[i].value))
      && (forall i, j :: 0 <= i < j < |members| && members[i].key == members[j].key ==> members[i].key == PROTO)
    case _ => true
  }

  // No object at any depth has the key __proto__.
  ghost predicate NoProtoKey(t: Tree) {
    match t
    case TArr(items) => forall i :: 0 <= i < |items| ==> NoProtoKey(items[i])
    case TObj(members) =>
      forall i :: 0 <= i < |members| ==> members[i].key != PROTO && NoProtoKey(members[i].value)
    case _ => true
  }

  // ---------- what the strict parser makes of a syntax tree ----------

  // The first key met again, in source order.
  ghost function FirstRepeat(t: Tree): Option<Text> {
    match t
    case TArr(items) => FirstRepeatItems(items)
    case TObj(members) => FirstRepeatMembers({}, members)
    case _ => None
  }

  ghost function FirstRepeatItems(items: seq<Tree>): Option<Text> {
    if items == [] then None
    else if FirstRepeat(items[0]).Some? then FirstRepeat(items[0])
    else FirstRepeatItems(items[1..])
  }

  ghost function Seen(seen: set<Text>, key: Text): set<Text> {
    if key == PROTO then seen else seen + {key}
  }

  ghost function FirstRepeatMembers(seen: set<Text>, members: seq<Member>): Option<Text>
    decreases members
  {
    if members == [] then None
    else if members[0].key in seen then Some(members[0].key)
    else if FirstRepeat(members[0].value).Some? then FirstRepeat(members[0].value)
    else FirstRepeatMembers(Seen(seen, members[0].key), members[1..])
  }

  ghost function Eval(t: Tree): Json {
    match t
    case TNull => Null
    case TBool(b) => Bool(b)
    case TNum(n) => Num(n)
    case TStr(s) => Str(s)
    case TArr(items) => Arr(EvalItems(items))
    case TObj(members) => Obj(EvalMembers(map[], members))
  }

  ghost function EvalItems(items: seq<Tree>): (r: seq<Json>)
    ensures |r| == |items|
  {
    if items == [] then [] else [Eval(items[0])] + EvalItems(items[1..])
  }

  ghost function EvalMembers(out: map<Text, Json>, members: seq<Member>): map<Text, Json>
    decreases members
  {
    if members == [] then out
    else EvalMembers(Assign(out, members[0].key, Eval(members[0].value)), members[1..])
  }

  // ---------- the strict parser follows the reference parser ----------

  // The strict outcome on a text the reference parser reads as `t`.
  ghost function Outcome(t: Tree, rest: Text): Parsed<Json> {
    match FirstRepeat(t)
    case None => Got(Eval(t), rest)
    case Some(k) => Bad(DuplicateKey(k))
  }

  lemma {:induction false} ValueFollows(s: Text)
    ensures match ReadTree(s)
            case Bad(_) => ValueOf(s).Bad?
            case Got(t, rest) => ValueOf(s) == Outcome(t, rest)
    decreases |s|, 1
  {
    hide ReadNumber, ReadString;
    var u := SkipWs(s);
    if u != [] && u[0] == 0x7b {
      ObjectFollows(u[1..]);
    } else if u != [] && u[0] == 0x5b {
      ArrayFollows(u[1..]);
    }
  }

  lemma {:induction false} ArrayFollows(s: Text)
    ensures match ReadArray(s)
            case Bad(_) => ArrayOf(s).Bad?
            case Got(t, rest) => ArrayOf(s) == Outcome(t, rest)
    decreases |s|, 3
  {
    hide ReadItems, ItemsOf;
    var t := SkipWs(s);
    if !Starts(t, 0x5d) {
      ItemsFollow(t);
    }
  }

  lemma {:induction false} ObjectFollows(s: Text)
    ensures match ReadObject(s)
            case Bad(_) => ObjectOf(s).Bad?
            case Got(t, rest) => ObjectOf(s) == Outcome(t, rest)
    decreases |s|, 3
  {
    hide ReadMembers, MembersOf;
    var t := SkipWs(s);
    if !Starts(t, 0x7d) {
      var none: map<Text, Json> := map[];
      MembersFollow(t, none);
      assert none.Keys == {};
    }
  }

  lemma {:induction false} ItemsFollow(s: Text)
    ensures match ReadItems(s)
            case Bad(_) => ItemsOf(s).Bad?
            case Got(items, rest) =>
              ItemsOf(s) ==
                match FirstRepeatItems(items)
                case None => Got(EvalItems(items), rest)
                case Some(k) => Bad(DuplicateKey(k))
    decreases |s|, 2
  {
    ValueFollows(s);
    if ReadTree(s).Got? {
      var u := SkipWs(ReadTree(s).rest);
      if Starts(u, 0x2c) {
        ItemsFollow(u[1..]);
        if ReadItems(s).Got? {
          assert ReadItems(s).value[1..] == ReadItems(u[1..]).value;
        }
      } else if Starts(u, 0x5d) {
        assert ReadItems(s).value[1..] == [];
        assert EvalItems(ReadItems(s).value) == [Eval(ReadTree(s).value)];
      }
    }
  }

  lemma {:induction false} MembersFollow(s: Text, out: map<Text, Json>)
    ensures match ReadMembers(s)
            case Bad(_) => MembersOf(s, out).Bad?
            case Got(members, rest) =>
              MembersOf(s, out) ==
                match FirstRepeatMembers(out.Keys, members)
                case None => Got(EvalMembers(out, members), rest)
                case Some(k) => Bad(DuplicateKey(k))
    decreases |s|, 2
  {
    hide ReadString;
    var key := ReadString(SkipWs(s));
    if key.Got? && key.value !in out {
      var u := SkipWs(key.rest);
      if Starts(u, 0x3a) {
        ValueFollows(u[1..]);
        if ReadTree(u[1..]).Got? {
          MembersFollowRest(s, out, key.value, ReadTree(u[1..]).value, SkipWs(ReadTree(u[1..]).rest));
        }
      }
    }
  }

  // The step after one member has been read: `x` is the text from the next ',' or '}'.
  lemma {:induction false} MembersFollowRest(s: Text, out: map<Text, Json>, key: Text, value: Tree, x: Text)
    requires |x| < |s|
    requires key !in out
    ensures
      var next := Assign(out, key, Eval(value));
      next.Keys == Seen(out.Keys, key)
    ensures Starts(x, 0x2c) ==>
      match ReadMembers(x[1..])
      case Bad(_) => MembersOf(x[1..], Assign(out, key, Eval(value))).Bad?
      case Got(members, rest) =>
        var all := [Member(key, value)] + members;
        && all[1..] == members
        && MembersOf(x[1..], Assign(out, key, Eval(value))) ==
           match FirstRepeatMembers(Seen(out.Keys, key), members)
           case None => Got(EvalMembers(out, all), rest)
           case Some(k) => Bad(DuplicateKey(k))
    ensures [Member(key, value)][1..] == []
    decreases |s|, 0
  {
    if Starts(x, 0x2c) {
      MembersFollow(x[1..], Assign(out, key, Eval(value)));
      if ReadMembers(x[1..]).Got? {
        assert ([Member(key, value)] + ReadMembers(x[1..]).value)[1..] == ReadMembers(x[1..]).value;
      }
    }
  }

  // ---------- declarative readings of FirstRepeat and Eval ----------

  lemma {:induction false} FirstRepeatSound(t: Tree)
    ensures FirstRepeat(t).None? <==> NoRepeats(t)
  {
    match t
    case TArr(items) => FirstRepeatItemsSound(items);
    case TObj(members) => FirstRepeatMembersSound({}, members);
    case _ =>
  }

  lemma {:induction false} FirstRepeatItemsSound(items: seq<Tree>)
    ensures FirstRepeatItems(items).None? <==> forall i :: 0 <= i < |items| ==> NoRepeats(items[i])
  {
    if items != [] {
      FirstRepeatSound(items[0]);
      FirstRepeatItemsSound(items[1..]);
      assert forall i :: 1 <= i < |items| ==> items[i] == items[1..][i - 1];
    }
  }

  ghost predicate Fresh(seen: set<Text>, members: seq<Member>) {
    && (forall i :: 0 <= i < |members| ==> NoRepeats(members[i].value))
    && (forall i :: 0 <= i < |members| ==> members[i].key !in seen)
    && (forall i, j :: 0 <= i < j < |members| && members[i].key == members[j].key ==> members[i].key == PROTO)
  }

  lemma {:induction false} FirstRepeatMembersSound(seen: set<Text>, members: seq<Member>)
    requires PROTO !in seen
    ensures FirstRepeatMembers(seen, members).None? <==> Fresh(seen, members)
    decreases members
  {
    if members != [] {
      FirstRepeatSound(members[0].value);
      FirstRepeatMembersSound(Seen(seen, members[0].key), members[1..]);
      FreshStep(seen, members);
    }
  }

  lemma FreshStep(seen: set<Text>, members: seq<Member>)
    requires members != []
    ensures Fresh(seen, members) <==>
      members[0].key !in seen && NoRepeats(members[0].value) && Fresh(Seen(seen, members[0].key), members[1..])
  {
    var tail := members[1..];
    assert forall i :: 0 <= i < |tail| ==> tail[i] == members[i + 1];
    if members[0].key !in seen && NoRepeats(members[0].value) && Fresh(Seen(seen, members[0].key), tail) {
      forall i | 0 <= i < |members| ensures NoRepeats(members[i].value) && members[i].key !in seen {
        if i > 0 {
          assert members[i] == tail[i - 1];
        }
      }
      forall i, j | 0 <= i < j < |members| && members[i].key == members[j].key ensures members[i].key == PROTO {
        assert members[j] == tail[j - 1];
        if i > 0 {
          assert members[i] == tail[i - 1];
        }
      }
    }
  }

  lemma {:induction false} EvalIsLastWins(t: Tree)
    requires NoProtoKey(t)
    ensures Eval(t) == LastWins(t)
  {
    match t
    case TArr(items) => EvalItemsIsLastWins(items);
    case TObj(members) => EvalMembersIsLastWins([], members, members);
    case _ =>
  }

  lemma {:induction false} EvalItemsIsLastWins(items: seq<Tree>)
    requires forall i :: 0 <= i < |items| ==> NoProtoKey(items[i])
    ensures EvalItems(items) == seq(|items|, i requires 0 <= i < |items| => LastWins(items[i]))
  {
    if items != [] {
      EvalIsLastWins(items[0]);
      EvalItemsIsLastWins(items[1..]);
    }
  }

  // Folding from the front over what remains equals folding from the back over everything.
  lemma {:induction false} EvalMembersIsLastWins(done: seq<Member>, todo: seq<Member>, all: seq<Member>)
    requires all == done + todo
    requires forall i :: 0 <= i < |todo| ==> todo[i].key != PROTO && NoProtoKey(todo[i].value)
    ensures EvalMembers(LastWinsMembers(done), todo) == LastWinsMembers(all)
    decreases todo
  {
    if todo == [] {
      assert all == done;
    } else {
      EvalIsLastWins(todo[0].value);
      var next := done + [todo[0]];
      assert next[..|next| - 1] == done;
      assert all == next + todo[1..];
      EvalMembersIsLastWins(next, todo[1..], all);
    }
  }

  // What the strict parser returns has no own property __proto__, and no bigint.
  lemma {:induction false} EvalClean(t: Tree)
    ensures NoProto(Eval(t)) && NoBigInt(Eval(t))
  {
    match t
    case TArr(items) => EvalItemsClean(items);
    case TObj(members) =>
      EvalMembersClean(map[], members);
      var m := EvalMembers(map[], members);
      assert Eval(t) == Obj(m) && CleanMap(m);
    case _ =>
  }

  lemma {:induction false} EvalItemsClean(items: seq<Tree>)
    ensures forall i :: 0 <= i < |items| ==> NoProto(EvalItems(items)[i]) && NoBigInt(EvalItems(items)[i])
  {
    if items != [] {
      EvalClean(items[0]);
      EvalItemsClean(items[1..]);
    }
  }

  ghost predicate CleanMap(m: map<Text, Json>) {
    forall k :: k in m ==> k != PROTO && NoProto(m[k]) && NoBigInt(m[k])
  }

  lemma {:induction false} EvalMembersClean(out: map<Text, Json>, members: seq<Member>)
    requires CleanMap(out)
    ensures CleanMap(EvalMembers(out, members))
    decreases members
  {
    if members != [] {
      EvalClean(members[0].value);
      EvalMembersClean(Assign(out, members[0].key, Eval(members[0].value)), members[1..]);
    }
  }

  // A __proto__ key in a tree without repeats survives in the last-wins value.
  lemma {:induction false} ProtoSurvives(t: Tree)
    requires NoRepeats(t) && !NoProtoKey(t)
    ensures !NoProto(LastWins(t))
  {
    match t
    case TArr(items) =>
      var i :| 0 <= i < |items| && !NoProtoKey(items[i]);
      ProtoSurvives(items[i]);
      assert LastWins(t).items[i] == LastWins(items[i]);
    case TObj(members) =>
      var i :| 0 <= i < |members| && (members[i].key == PROTO || !NoProtoKey(members[i].value));
      LastWinsHolds(members, i);
      if members[i].key != PROTO {
        ProtoSurvives(members[i].value);
        assert LastWinsMembers(members)[members[i].key] == LastWins(members[i].value);
      }
  }

  // A key is present; when it is not repeated its value is that of its one member.
  lemma {:induction false} LastWinsHolds(members: seq<Member>, i: nat)
    requires i < |members|
    ensures members[i].key in LastWinsMembers(members)
    ensures (forall j :: i < j < |members| ==> members[j].key != members[i].key) ==>
      LastWinsMembers(members)[members[i].key] == LastWins(members[i].value)
  {
    if i < |members| - 1 {
      LastWinsHolds(members[..|members| - 1], i);
    }
  }

  // ---------- main results ----------

  // On a well-formed text strictParse reports the first repeated key when an object at any
  // depth repeats one, and otherwise returns a value; that value is the last-wins value
  // exactly when in addition no object has the key __proto__.
  lemma StrictParseAgainstReference(text: Text)
    requires ReadText(text).Got?
    ensures
      var t := ReadText(text).value;
      && (TextOf(text).Ok? <==> NoRepeats(t))
      && (!NoRepeats(t) ==> FirstRepeat(t).Some? && TextOf(text) == Err(DuplicateKey(FirstRepeat(t).value)))
      && (TextOf(text) == Ok(LastWins(t)) <==> NoRepeats(t) && NoProtoKey(t))
  {
    ValueFollows(SkipWs(text));
    var t := ReadText(text).value;
    FirstRepeatSound(t);
    if NoRepeats(t) {
      if NoProtoKey(t) {
        EvalIsLastWins(t);
      } else {
        ProtoSurvives(t);
        EvalClean(t);
      }
    }
  }

  // A text that is not JSON is never accepted, and of the others exactly those that repeat a
  // key in some object are rejected.
  lemma StrictParseRejects(text: Text)
    ensures ReadText(text).Bad? ==> TextOf(text).Err?
    ensures TextOf(text).Err? <==> ReadText(text).Bad? || !NoRepeats(ReadText(text).value)
  {
    ValueFollows(SkipWs(text));
    if ReadText(text).Got? {
      StrictParseAgainstReference(text);
    }
  }
}
