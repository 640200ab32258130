// The Go canonical JSON writer (licensing/canonical.go), over UTF-8 byte strings, proved to
// write the bytes of the text the TypeScript printer gives the corresponding value.
module GoCanonical {
  import opened Base
  import opened CanonicalBytes
  import opened CanonicalJson
  import opened JsonValue
  import Utf16Order
  import Utf8

  // A Go string is a byte string.
  type GoString = Bytes

  // The dynamic types the writer tells apart; JsonNumber carries what its Int64 gives.
  datatype GoValue =
    | Nil
    | GoBool(b: bool)
    | GoText(s: GoString)
    | GoInt(i: int)
    | JsonNumber(int64: Option<int>)
    | GoFloat(n: Number)
    | Slice(items: seq<GoValue>)
    | GoMap(m: map<GoString, GoValue>)
    | Other

  // ---------- strings as UTF-16 ----------

  // utf16.Encode([]rune(s)): an ill-formed byte becomes U+FFFD.
  function Transcode(s: GoString): Text
    decreases |s|
  {
    if s == [] then []
    else
      match Utf8.DecodePoint(s)
      case None => [0xfffd] + Transcode(s[1..])
      case Some((p, n)) => Utf8.UnitsOf(p) + Transcode(s[n..])
  }

  predicate ValidString(s: GoString) {
    Utf8.DecodeAll(s).Some?
  }

  predicate IsAscii(s: GoString) {
    forall i :: 0 <= i < |s| ==> s[i] < 0x80
  }

  lemma {:induction false} TranscodeValid(s: GoString)
    requires ValidString(s)
    ensures Utf8.DecodeAll(s) == Some(Transcode(s))
    ensures Utf8.Encode(Transcode(s)) == s && WellFormed(Transcode(s))
    decreases |s|
  {
    Utf8.EncodesDecoded(s);
    if s != [] {
      var (p, n) := Utf8.DecodePoint(s).value;
      TranscodeValid(s[n..]);
    }
  }

  // On ASCII strings transcoding changes nothing, so comparing bytes is comparing units.
  lemma {:induction false} TranscodeAscii(s: GoString)
    requires IsAscii(s)
    ensures Transcode(s) == s
    decreases |s|
  {
    if s != [] {
      TranscodeAscii(s[1..]);
      assert s == [s[0]] + s[1..];
    }
  }

  // The order the comparator defines on two strings.
  predicate GoLess(a: GoString, b: GoString) {
    Utf16Order.Less(Transcode(a), Transcode(b))
  }

  method IsASCII(s: GoString) returns (r: bool)
    ensures r == IsAscii(s)
  {
    for i := 0 to |s|
      invariant forall k :: 0 <= k < i ==> s[k] < 0x80
    {
      if s[i] >= 0x80 {
        return false;
      }
    }
    return true;
  }

  // The comparison both paths end in: the first difference, else the length.
  method CompareUnits(a: Text, b: Text) returns (c: int)
    ensures c < 0 <==> Utf16Order.Less(a, b)
    ensures c > 0 <==> Utf16Order.Less(b, a)
  {
    var i := 0;
    while i < |a| && i < |b|
      invariant 0 <= i <= |a| && i <= |b|
      invariant Utf16Order.Less(a, b) <==> Utf16Order.Less(a[i..], b[i..])
      invariant Utf16Order.Less(b, a) <==> Utf16Order.Less(b[i..], a[i..])
    {
      assert a[i..][1..] == a[i + 1..] && b[i..][1..] == b[i + 1..];
      if a[i] != b[i] {
        return if a[i] < b[i] then -1 else 1;
      }
      i := i + 1;
    }
    if |a| < |b| {
      return -1;
    }
    if |a| > |b| {
      return 1;
    }
    return 0;
  }

  // compareUTF16: the byte comparison of the fast path gives the UTF-16 order.
  method CompareUTF16(a: GoString, b: GoString) returns (c: int)
    ensures c < 0 <==> GoLess(a, b)
    ensures c > 0 <==> GoLess(b, a)
  {
    var asciiA := IsASCII(a);
    var asciiB := IsASCII(b);
    if asciiA && asciiB {
      TranscodeAscii(a);
      TranscodeAscii(b);
      c := CompareUnits(a, b);
    } else {
      c := CompareUnits(Transcode(a), Transcode(b));
    }
  }

  // Beyond ASCII the two orders part: U+FFFD comes before U+10000 in bytes, after it in units.
  lemma BytesWouldMisorder()
    ensures
      var a: GoString := [0xef, 0xbf, 0xbd];
      var b: GoString := [0xf0, 0x90, 0x80, 0x80];
      && ValidString(a) && ValidString(b)
      && Utf16Order.Less(a, b) && !GoLess(a, b) && GoLess(b, a)
  {
    var a: GoString := [0xef, 0xbf, 0xbd];
    var b: GoString := [0xf0, 0x90, 0x80, 0x80];
    assert Utf8.DecodePoint(a) == Some((0xfffd, 3)) && a[3..] == [];
    assert Utf8.DecodePoint(b) == Some((0x1_0000, 4)) && b[4..] == [];
    assert Transcode(a) == [0xfffd] + [] && Transcode(b) == [0xd800, 0xdc00] + [];
  }

  // ---------- corresponding values ----------

  ghost predicate Valid(g: GoValue) {
    match g
    case GoText(s) => ValidString(s)
    case Slice(items) => forall i :: 0 <= i < |items| ==> Valid(items[i])
    case GoMap(m) => forall k :: k in m ==> ValidString(k) && Valid(m[k])
    case _ => true
  }

  lemma KeysTranscode(m: map<GoString, GoValue>)
    requires forall k :: k in m ==> ValidString(k)
    ensures forall k :: k in m ==> Utf8.Encode(Transcode(k)) == k
  {
    forall k | k in m ensures Utf8.Encode(Transcode(k)) == k {
      TranscodeValid(k);
    }
  }

  // The value TypeScript would hold: strings transcoded, integers by their value.
  ghost function Counterpart(g: GoValue): Json
    requires Valid(g)
  {
    match g
    case Nil => Null
    case GoBool(b) => Bool(b)
    case GoText(s) => Str(Transcode(s))
    case GoInt(i) => BigInt(i)
    case JsonNumber(None) => Num(NaN)
    case JsonNumber(Some(i)) => BigInt(i)
    case GoFloat(n) => Num(n)
    case Slice(items) => Arr(seq(|items|, i requires 0 <= i < |items| => Counterpart(items[i])))
    case GoMap(m) =>
      KeysTranscode(m);
      Obj(map t | t in (set k | k in m :: Transcode(k)) :: Counterpart(m[Utf8.Encode(t)]))
    case Other => Exotic
  }

  lemma CounterpartAt(g: GoValue, k: GoString)
    requires g.GoMap? && Valid(g) && k in g.m
    ensures Transcode(k) in Counterpart(g).members
    ensures Counterpart(g).members[Transcode(k)] == Counterpart(g.m[k])
  {
    TranscodeValid(k);
  }

  // ---------- encoding piece by piece ----------

  lemma {:induction false} EncodeAppend(a: Text, b: Text)
    requires WellFormed(a)
    ensures Utf8.Encode(a + b) == Utf8.Encode(a) + Utf8.Encode(b)
    decreases |a|
  {
    hide Utf8.EncodePoint;
    if a == [] {
      assert a + b == b;
    } else {
      var (p, n) := Utf8.FirstPoint(a);
      Utf8.WellFormedFirst(a);
      assert (a + b)[n..] == a[n..] + b;
      assert Utf8.FirstPoint(a + b) == (p, n);
      EncodeAppend(a[n..], b);
      AppendAssoc(Utf8.EncodePoint(p), Utf8.Encode(a[n..]), Utf8.Encode(b));
    }
  }

  lemma {:induction false} EncodeAscii(t: Text)
    requires forall i :: 0 <= i < |t| ==> t[i] < 0x80
    ensures Utf8.Encode(t) == t && WellFormed(t)
    decreases |t|
  {
    if t != [] {
      EncodeAscii(t[1..]);
      assert t == [t[0]] + t[1..];
    }
  }

  // ---------- writeString ----------

  function EscapeBytes(s: GoString): Bytes
    requires ValidString(s)
    decreases |s|
  {
    if s == [] then []
    else if s[0] < 0x80 then EscapeByte(s[0]) + EscapeBytes(s[1..])
    else
      var n := Utf8.DecodePoint(s).value.1;
      s[..n] + EscapeBytes(s[n..])
  }

  // The byte-wise escapes are the unit-wise ones.
  function EscapeByte(b: Byte): Bytes
    requires b < 0x80
  {
    if b == 0x22 then [0x5c, 0x22]
    else if b == 0x5c then [0x5c, 0x5c]
    else if b == 0x08 then [0x5c, 0x62]
    else if b == 0x09 then [0x5c, 0x74]
    else if b == 0x0a then [0x5c, 0x6e]
    else if b == 0x0c then [0x5c, 0x66]
    else if b == 0x0d then [0x5c, 0x72]
    else if b < 0x20 then [0x5c, 0x75, 0x30, 0x30, HexDigit(b / 16), HexDigit(b % 16)]
    else [b]
  }

  lemma {:induction false} EscapeBytesMeans(s: GoString)
    requires ValidString(s)
    ensures EscapeBytes(s) == Utf8.Encode(Escape(Transcode(s)))
    decreases |s|
  {
    if s != [] {
      var (p, n) := Utf8.DecodePoint(s).value;
      var rest := Transcode(s[n..]);
      EscapeBytesMeans(s[n..]);
      Utf8.EncodesPoint(s);
      TranscodeValid(s[n..]);
      EscapePoint(p, rest);
      EscapeWellFormed(rest);
      if s[0] < 0x80 {
        EncodeAscii(EscapeUnit(p));
        EncodeAppend(EscapeUnit(p), Escape(rest));
      } else {
        hide Utf8.DecodePoint;
        assert p >= 0x80;
        Utf8.EncodeStep(p, Escape(rest));
      }
      hide Utf8.Encode, Escape, Utf8.EncodePoint, Utf8.UnitsOf, Utf8.FirstPoint;
    }
  }

  lemma EscapePoint(p: Utf8.Point, rest: Text)
    requires Utf8.Scalar(p)
    ensures p < 0x80 ==> Escape(Utf8.UnitsOf(p) + rest) == EscapeUnit(p) + Escape(rest)
    ensures p >= 0x80 ==> Escape(Utf8.UnitsOf(p) + rest) == Utf8.UnitsOf(p) + Escape(rest)
  {
    var u := Utf8.UnitsOf(p);
    assert (u + rest)[1..] == u[1..] + rest;
    if |u| == 2 {
      assert u[1..] == [u[1]];
      assert ([u[1]] + rest)[1..] == rest;
      assert EscapeUnit(u[0]) == [u[0]] && EscapeUnit(u[1]) == [u[1]];
      assert Escape(u + rest) == [u[0]] + ([u[1]] + Escape(rest));
    } else {
      assert u[1..] + rest == rest;
    }
  }

  // ---------- the writer ----------

  type Wrote = Result<(), CanonError>

  class Buffer {
    var bytes: Bytes

    constructor ()
      ensures bytes == []
    {
      bytes := [];
    }

    method Push(chunk: Bytes)
      modifies this
      ensures bytes == old(bytes) + chunk
    {
      bytes := bytes + chunk;
    }

    // The UTF-8 of the printed text was appended, or the printer's error is reported.
    ghost predicate Appended(before: Bytes, printed: Printed, wrote: Wrote)
      reads this
    {
      match printed
      case Ok(p) => wrote.Ok? && bytes == before + Utf8.Encode(p)
      case Err(e) => wrote == Err(e)
    }

    method WriteString(s: GoString) returns (r: Wrote)
      modifies this
      ensures r.Ok? <==> ValidString(s)
      ensures ValidString(s) ==> Appended(old(bytes), PrintString(Transcode(s)), r)
      ensures !ValidString(s) ==> r == Err(InvalidUTF8)
    {
      var decoded := Utf8.DecodeAll(s);
      if decoded.None? {
        return Err(InvalidUTF8);
      }
      ghost var base := bytes;
      TranscodeValid(s);
      Push(QUOTE);
      WriteEscaped(s);
      Push(QUOTE);
      EscapeBytesMeans(s);
      EscapeWellFormed(Transcode(s));
      QuotedBytes(Escape(Transcode(s)));
      AppendAssoc(base, QUOTE, EscapeBytes(s));
      AppendAssoc(base, QUOTE + EscapeBytes(s), QUOTE);
      return Ok(());
    }

    // The loop of writeString.
    method WriteEscaped(s: GoString)
      requires ValidString(s)
      modifies this
      ensures bytes == old(bytes) + EscapeBytes(s)
    {
      ghost var base := bytes;
      var i := 0;
      while i < |s|
        invariant 0 <= i <= |s| && ValidString(s[i..])
        invariant bytes + EscapeBytes(s[i..]) == base + EscapeBytes(s)
      {
        i := WriteRune(s, i);
      }
      assert s[i..] == [];
    }

    method WriteRune(s: GoString, i: nat) returns (next: nat)
      requires i < |s| && ValidString(s[i..])
      modifies this
      ensures i < next <= |s| && ValidString(s[next..])
      ensures bytes + EscapeBytes(s[next..]) == old(bytes) + EscapeBytes(s[i..])
    {
      ghost var base := bytes;
      ghost var rest := s[i..];
      var b := s[i];
      var size := Utf8.DecodePoint(s[i..]).value.1;
      assert s[i..][size..] == s[i + size..];
      if b < 0x80 {
        assert size == 1;
        PushEscaped(b);
        AppendAssoc(base, EscapeByte(b), EscapeBytes(s[i + 1..]));
        return i + 1;
      }
      Push(s[i..i + size]);
      assert rest[..size] == s[i..i + size];
      AppendAssoc(base, s[i..i + size], EscapeBytes(s[i + size..]));
      return i + size;
    }

    method PushEscaped(b: Byte)
      requires b < 0x80
      modifies this
      ensures bytes == old(bytes) + EscapeByte(b)
    {
      if b == 0x22 {
        Push([0x5c, 0x22]);
      } else if b == 0x5c {
        Push([0x5c, 0x5c]);
      } else if b == 0x08 {
        Push([0x5c, 0x62]);
      } else if b == 0x09 {
        Push([0x5c, 0x74]);
      } else if b == 0x0a {
        Push([0x5c, 0x6e]);
      } else if b == 0x0c {
        Push([0x5c, 0x66]);
      } else if b == 0x0d {
        Push([0x5c, 0x72]);
      } else if b < 0x20 {
        Push([0x5c, 0x75, 0x30, 0x30]);
        Push([HexDigit(b / 16)]);
        Push([HexDigit(b % 16)]);
      } else {
        Push([b]);
      }
    }

    method WriteInt64(n: int) returns (r: Wrote)
      modifies this
      ensures Appended(old(bytes), PrintValue(BigInt(n)), r)
    {
      if n > MAX_SAFE || n < -MAX_SAFE {
        return Err(InvalidNumber);
      }
      DecimalAscii(n);
      Push(Utf8.Encode(Decimal(n)));
      return Ok(());
    }

    method WriteFloat(f: Number) returns (r: Wrote)
      modifies this
      ensures Appended(old(bytes), PrintValue(Num(f)), r)
    {
      if f.NaN? || f.Infinity? {
        return Err(InvalidNumber);
      }
      if f.NegativeZero? {
        return Err(InvalidNumber);
      }
      if !IsInteger(f.r) {
        return Err(InvalidNumber);
      }
      if f.r > MAX_SAFE as real || f.r < -(MAX_SAFE as real) {
        return Err(InvalidNumber);
      }
      Push(Utf8.Encode(Decimal(f.r.Floor)));
      return Ok(());
    }

    method WriteValue(g: GoValue) returns (r: Wrote)
      modifies this
      ensures r.Ok? ==> Valid(g)
      ensures Valid(g) ==> Appended(old(bytes), PrintValue(Counterpart(g)), r)
      decreases g
    {
      hide WellFormed, Utf8.Encode, Transcode;
      match g
      case Nil =>
        EncodeAscii(NULL);
        Push(NULL);
        r := Ok(());
      case GoBool(b) =>
        EncodeAscii(if b then TRUE else FALSE);
        Push(if b then TRUE else FALSE);
        r := Ok(());
      case GoText(s) =>
        r := WriteString(s);
      case GoInt(i) =>
        r := WriteInt64(i);
      case JsonNumber(i) =>
        if i.Some? {
          r := WriteInt64(i.value);
        } else {
          r := Err(InvalidNumber);
        }
      case GoFloat(n) =>
        r := WriteFloat(n);
      case Slice(_) =>
        r := WriteArray(g);
      case GoMap(_) =>
        r := WriteObject(g);
      case Other =>
        r := Err(InvalidType);
    }

    method WriteArray(g: GoValue) returns (r: Wrote)
      requires g.Slice?
      modifies this
      ensures r.Ok? ==> Valid(g)
      ensures Valid(g) ==> Appended(old(bytes), PrintValue(Counterpart(g)), r)
      decreases g, 1
    {
      ghost var base := bytes;
      Push(OPEN_ARRAY);
      r := WriteItems(g);
      if r.Ok? {
        Push(CLOSE_ARRAY);
        if Valid(g) {
          var v := Counterpart(g);
          ItemsWellFormed(v, 0);
          WrappedBytes(base, OPEN_ARRAY, PrintItems(v, 0).value, CLOSE_ARRAY);
        }
      }
    }

    method WriteItems(g: GoValue) returns (r: Wrote)
      requires g.Slice?
      modifies this
      ensures r.Ok? ==> Valid(g)
      ensures Valid(g) ==> Appended(old(bytes), PrintItems(Counterpart(g), 0), r)
      decreases g, 0
    {
      hide WellFormed, Utf8.Encode;
      ghost var base := bytes;
      ghost var done: Text := [];
      if Valid(g) {
        ContinueNothing(PrintItems(Counterpart(g), 0));
      }
      EncodeAscii([]);
      var i := 0;
      while i < |g.items|
        invariant 0 <= i <= |g.items|
        invariant forall j :: 0 <= j < i ==> Valid(g.items[j])
        invariant WellFormed(done)
        invariant Valid(g) ==> bytes == base + Utf8.Encode(done)
        invariant Valid(g) ==> PrintItems(Counterpart(g), 0) == Continue(done, PrintItems(Counterpart(g), i))
      {
        ghost var before := bytes;
        if i > 0 {
          Push(COMMA);
        }
        assert bytes == before + Separator(i);
        var wrote := WriteValue(g.items[i]);
        if Valid(g) {
          ItemsStep(Counterpart(g), i, done);
        }
        if wrote.Err? {
          return wrote;
        }
        if Valid(g) {
          var p := PrintValue(Counterpart(g).items[i]).value;
          PrintedWellFormed(Counterpart(g).items[i]);
          PieceBytes(base, done, i, p);
          done := done + (Separator(i) + p);
        }
        i := i + 1;
      }
      assert done + [] == done;
      return Ok(());
    }

    method WriteObject(g: GoValue) returns (r: Wrote)
      requires g.GoMap?
      modifies this
      ensures r.Ok? ==> Valid(g)
      ensures Valid(g) ==> Appended(old(bytes), PrintValue(Counterpart(g)), r)
      decreases g, 3
    {
      hide WellFormed, Utf8.Encode, Transcode, SortKeys, Counterpart, PrintValue, PrintMembers;
      ghost var base := bytes;
      var enumerated := KeysOfMap(g.m);
      var keys := SortKeys(enumerated);
      SortElements(enumerated);
      Push(OPEN_OBJECT);
      r := WriteMembers(g, keys);
      if Valid(g) {
        SortedKeysTranscode(g, enumerated);
        PrintedObject(g, keys);
      }
      if r.Ok? {
        Push(CLOSE_OBJECT);
        if Valid(g) {
          var body := PrintMembers(Counterpart(g), Transcoded(keys), 0).value;
          WrappedBytes(base, OPEN_OBJECT, body, CLOSE_OBJECT);
        }
      }
    }

    method WriteMembers(g: GoValue, keys: seq<GoString>) returns (r: Wrote)
      requires g.GoMap? && (forall k :: k in keys <==> k in g.m)
      modifies this
      ensures r.Ok? ==> Valid(g)
      ensures Valid(g) ==>
        && (forall t :: t in Transcoded(keys) ==> t in Counterpart(g).members)
        && Appended(old(bytes), PrintMembers(Counterpart(g), Transcoded(keys), 0), r)
      decreases g, 2, 1
    {
      hide WellFormed, Utf8.Encode, Transcode, MembersWritten, PrintMembers;
      ghost var base := bytes;
      ghost var done: Text := [];
      if Valid(g) {
        TranscodedIn(g, keys);
        NothingWritten(g, keys, base);
      }
      var i := 0;
      while i < |keys|
        invariant 0 <= i <= |keys|
        invariant forall j :: 0 <= j < i ==> ValidString(keys[j]) && Valid(g.m[keys[j]])
        invariant Valid(g) ==> MembersWritten(g, keys, base, done, bytes, i)
      {
        r, done := WriteMemberAt(g, keys, i, base, done);
        if r.Err? {
          return r;
        }
        i := i + 1;
      }
      AllValid(g, keys);
      AllWritten(g, keys, base, done, bytes);
      return Ok(());
    }

    // One round of the loop.
    method WriteMemberAt(g: GoValue, keys: seq<GoString>, i: nat, ghost base: Bytes, ghost done: Text)
      returns (r: Wrote, ghost more: Text)
      requires g.GoMap? && (forall k :: k in keys <==> k in g.m) && i < |keys|
      requires Valid(g) ==> MembersWritten(g, keys, base, done, bytes, i)
      modifies this
      ensures r.Ok? ==> ValidString(keys[i]) && Valid(g.m[keys[i]])
      ensures r.Ok? && Valid(g) ==> MembersWritten(g, keys, base, more, bytes, i + 1)
      ensures r.Err? && Valid(g) ==>
        && (forall t :: t in Transcoded(keys) ==> t in Counterpart(g).members)
        && PrintMembers(Counterpart(g), Transcoded(keys), 0) == Err(r.error)
      decreases g, 2, 0
    {
      hide WellFormed, Utf8.Encode, Transcode;
      ghost var before := bytes;
      more := done;
      if i > 0 {
        Push(COMMA);
      }
      assert bytes == before + Separator(i);
      assert keys[i] in keys;
      r := WriteMember(g, keys[i]);
      if Valid(g) {
        var ts := Transcoded(keys);
        assert ts[i] == Transcode(keys[i]) && ts[i] in ts;
        MembersStep(Counterpart(g), ts, i, done);
        if r.Ok? {
          var p := PrintMember(Counterpart(g), ts[i]).value;
          MemberWellFormed(Counterpart(g), ts[i]);
          PieceBytes(base, done, i, p);
          more := done + (Separator(i) + p);
        }
      }
    }

    method WriteMember(g: GoValue, k: GoString) returns (r: Wrote)
      requires g.GoMap? && k in g.m
      modifies this
      ensures r.Ok? ==> ValidString(k) && Valid(g.m[k])
      ensures Valid(g) ==> Transcode(k) in Counterpart(g).members
      ensures Valid(g) ==> Appended(old(bytes), PrintMember(Counterpart(g), Transcode(k)), r)
      decreases g, 1
    {
      hide Utf8.Encode, Transcode;
      ghost var base := bytes;
      if Valid(g) {
        CounterpartAt(g, k);
      }
      r := WriteString(k);
      if r.Ok? {
        Push(COLON);
        r := WriteValue(g.m[k]);
        if r.Ok? && Valid(g) {
          StringWellFormed(Transcode(k));
          MemberBytes(base, PrintString(Transcode(k)).value, PrintValue(Counterpart(g.m[k])).value);
        }
      }
    }
  }

  lemma PrintedObject(g: GoValue, keys: seq<GoString>)
    requires g.GoMap? && Valid(g)
    requires Counterpart(g).Obj? && Transcoded(keys) == Utf16Order.SortedKeys(Counterpart(g).members.Keys)
    ensures forall t :: t in Transcoded(keys) ==> t in Counterpart(g).members
    ensures
      var body := PrintMembers(Counterpart(g), Transcoded(keys), 0);
      && PrintValue(Counterpart(g)) == (match body case Ok(b) => Ok(OPEN_OBJECT + b + CLOSE_OBJECT) case Err(e) => Err(e))
      && (body.Ok? ==> WellFormed(body.value))
  {
    hide WellFormed, Transcode, Counterpart, PrintMembers;
    MembersWellFormed(Counterpart(g), Transcoded(keys), 0);
  }

  // How far an object is written: the members before i as `done`, the rest still to print.
  ghost predicate MembersWritten(g: GoValue, keys: seq<GoString>, base: Bytes, done: Text, bytes: Bytes, i: nat)
    requires g.GoMap? && Valid(g)
  {
    && i <= |keys| && WellFormed(done) && bytes == base + Utf8.Encode(done)
    && (forall t :: t in Transcoded(keys) ==> t in Counterpart(g).members)
    && PrintMembers(Counterpart(g), Transcoded(keys), 0)
       == Continue(done, PrintMembers(Counterpart(g), Transcoded(keys), i))
  }

  lemma NothingWritten(g: GoValue, keys: seq<GoString>, base: Bytes)
    requires g.GoMap? && Valid(g) && forall t :: t in Transcoded(keys) ==> t in Counterpart(g).members
    ensures MembersWritten(g, keys, base, [], base, 0)
  {
    ContinueNothing(PrintMembers(Counterpart(g), Transcoded(keys), 0));
    EncodeAscii([]);
  }

  lemma AllWritten(g: GoValue, keys: seq<GoString>, base: Bytes, done: Text, bytes: Bytes)
    requires g.GoMap? && Valid(g) && MembersWritten(g, keys, base, done, bytes, |keys|)
    ensures forall t :: t in Transcoded(keys) ==> t in Counterpart(g).members
    ensures PrintMembers(Counterpart(g), Transcoded(keys), 0) == Ok(done) && bytes == base + Utf8.Encode(done)
  {
    assert done + [] == done;
  }

  // ---------- bytes of joined pieces ----------

  lemma QuotedBytes(t: Text)
    requires WellFormed(t)
    ensures Utf8.Encode(QUOTE + t + QUOTE) == QUOTE + Utf8.Encode(t) + QUOTE
  {
    EncodeAscii(QUOTE);
    WellFormedAppend(QUOTE, t);
    EncodeAppend(QUOTE + t, QUOTE);
    EncodeAppend(QUOTE, t);
  }

  lemma WrappedBytes(base: Bytes, open: Text, body: Text, close: Text)
    requires WellFormed(body)
    requires |open| == 1 && open[0] < 0x80 && |close| == 1 && close[0] < 0x80
    ensures base + open + Utf8.Encode(body) + close == base + Utf8.Encode(open + body + close)
  {
    hide Utf8.Encode, WellFormed;
    EncodeAscii(open);
    EncodeAscii(close);
    WellFormedAppend(open, body);
    EncodeAppend(open + body, close);
    EncodeAppend(open, body);
    AppendAssoc(base, open, Utf8.Encode(body));
    AppendAssoc(base, open + Utf8.Encode(body), close);
  }

  lemma PieceBytes(base: Bytes, done: Text, i: nat, piece: Text)
    requires WellFormed(done) && WellFormed(piece)
    ensures base + Utf8.Encode(done) + Separator(i) + Utf8.Encode(piece)
      == base + Utf8.Encode(done + (Separator(i) + piece))
    ensures WellFormed(done + (Separator(i) + piece))
  {
    hide Utf8.Encode, WellFormed;
    EncodeAscii(Separator(i));
    EncodeAppend(Separator(i), piece);
    EncodeAppend(done, Separator(i) + piece);
    WellFormedAppend(Separator(i), piece);
    WellFormedAppend(done, Separator(i) + piece);
    AppendAssoc(Utf8.Encode(done), Separator(i), Utf8.Encode(piece));
    AppendAssoc(base, Utf8.Encode(done), Separator(i) + Utf8.Encode(piece));
    AppendAssoc(base + Utf8.Encode(done), Separator(i), Utf8.Encode(piece));
  }

  lemma MemberBytes(base: Bytes, key: Text, value: Text)
    requires WellFormed(key)
    ensures base + Utf8.Encode(key) + COLON + Utf8.Encode(value) == base + Utf8.Encode(key + COLON + value)
  {
    EncodeAscii(COLON);
    WellFormedAppend(key, COLON);
    EncodeAppend(key + COLON, value);
    EncodeAppend(key, COLON);
    AppendAssoc(base, Utf8.Encode(key), COLON);
    AppendAssoc(base, Utf8.Encode(key) + COLON, Utf8.Encode(value));
  }

  lemma MemberWellFormed(v: Json, k: Text)
    requires v.Obj? && k in v.members && PrintMember(v, k).Ok?
    ensures WellFormed(PrintMember(v, k).value)
  {
    StringWellFormed(k);
    PrintedWellFormed(v.members[k]);
    AsciiWellFormed(COLON);
    Joined3(PrintString(k).value, COLON, PrintValue(v.members[k]).value);
  }

  lemma DecimalAscii(i: int)
    ensures WellFormed(Decimal(i))
  {
    DecimalWellFormed(i);
  }

  // ---------- keys ----------

  function Transcoded(ks: seq<GoString>): (ts: seq<Text>)
    ensures |ts| == |ks|
  {
    seq(|ks|, i requires 0 <= i < |ks| => Transcode(ks[i]))
  }

  // Ranging over a map: every key once, in any order.
  method KeysOfMap(m: map<GoString, GoValue>) returns (ks: seq<GoString>)
    ensures forall k :: k in ks <==> k in m
    ensures forall i, j :: 0 <= i < j < |ks| ==> ks[i] != ks[j]
  {
    ks := [];
    var todo := m.Keys;
    while todo != {}
      invariant todo <= m.Keys
      invariant forall k :: k in ks <==> k in m.Keys - todo
      invariant forall i, j :: 0 <= i < j < |ks| ==> ks[i] != ks[j]
      decreases todo
    {
      var k :| k in todo;
      assert k !in ks;
      ks := ks + [k];
      todo := todo - {k};
    }
  }

  // sort.Slice by the comparator.
  function InsertKey(k: GoString, ks: seq<GoString>): seq<GoString> {
    if ks == [] then [k]
    else if GoLess(k, ks[0]) then [k] + ks
    else [ks[0]] + InsertKey(k, ks[1..])
  }

  function SortKeys(ks: seq<GoString>): seq<GoString> {
    if ks == [] then [] else InsertKey(ks[0], SortKeys(ks[1..]))
  }

  lemma {:induction false} InsertKeyElements(k: GoString, ks: seq<GoString>)
    ensures forall x :: x in InsertKey(k, ks) <==> x == k || x in ks
  {
    if ks != [] && !GoLess(k, ks[0]) {
      InsertKeyElements(k, ks[1..]);
      assert ks == [ks[0]] + ks[1..];
    }
  }

  lemma {:induction false} SortElements(ks: seq<GoString>)
    ensures forall x :: x in SortKeys(ks) <==> x in ks
  {
    if ks != [] {
      SortElements(ks[1..]);
      InsertKeyElements(ks[0], SortKeys(ks[1..]));
      assert ks == [ks[0]] + ks[1..];
    }
  }

  lemma {:induction false} InsertTranscoded(k: GoString, ks: seq<GoString>)
    ensures Transcoded(InsertKey(k, ks)) == Utf16Order.Insert(Transcode(k), Transcoded(ks))
  {
    hide Transcode, Utf16Order.Less;
    if ks != [] {
      assert Transcoded(ks)[0] == Transcode(ks[0]) && Transcoded(ks)[1..] == Transcoded(ks[1..]);
      if !GoLess(k, ks[0]) {
        InsertTranscoded(k, ks[1..]);
        assert Transcoded([ks[0]] + InsertKey(k, ks[1..])) == [Transcode(ks[0])] + Transcoded(InsertKey(k, ks[1..]));
      } else {
        assert Transcoded([k] + ks) == [Transcode(k)] + Transcoded(ks);
      }
    }
  }

  lemma {:induction false} SortTranscoded(ks: seq<GoString>)
    ensures Transcoded(SortKeys(ks)) == Utf16Order.Sort(Transcoded(ks))
  {
    hide Transcode;
    if ks != [] {
      assert Transcoded(ks)[0] == Transcode(ks[0]) && Transcoded(ks)[1..] == Transcoded(ks[1..]);
      SortTranscoded(ks[1..]);
      InsertTranscoded(ks[0], SortKeys(ks[1..]));
    }
  }

  // Sorting the byte keys gives the canonical order of the text keys, however the map
  // enumerated them.
  lemma SortedKeysTranscode(g: GoValue, ks: seq<GoString>)
    requires g.GoMap? && Valid(g)
    requires (forall k :: k in ks <==> k in g.m) && (forall i, j :: 0 <= i < j < |ks| ==> ks[i] != ks[j])
    ensures Counterpart(g).Obj?
    ensures Transcoded(SortKeys(ks)) == Utf16Order.SortedKeys(Counterpart(g).members.Keys)
  {
    hide Transcode, Utf8.Encode;
    var ts := Transcoded(ks);
    forall i, j | 0 <= i < j < |ts| ensures ts[i] != ts[j] {
      assert ks[i] in ks && ks[j] in ks;
      TranscodeValid(ks[i]);
      TranscodeValid(ks[j]);
    }
    forall t ensures t in ts <==> t in Counterpart(g).members {
      if t in ts {
        var i :| 0 <= i < |ts| && ts[i] == t;
        assert ks[i] in ks;
      }
      if t in Counterpart(g).members {
        var k :| k in g.m && Transcode(k) == t;
        assert k in ks;
        var i :| 0 <= i < |ks| && ks[i] == k;
        assert ts[i] == t;
      }
    }
    SortTranscoded(ks);
    SortedEnumeration(ts, Counterpart(g).members);
  }

  lemma TranscodedIn(g: GoValue, ks: seq<GoString>)
    requires g.GoMap? && Valid(g) && forall k :: k in ks ==> k in g.m
    ensures forall t :: t in Transcoded(ks) ==> t in Counterpart(g).members
  {
    hide Transcode;
    forall t | t in Transcoded(ks) ensures t in Counterpart(g).members {
      var i :| 0 <= i < |ks| && Transcoded(ks)[i] == t;
      assert ks[i] in ks;
      CounterpartAt(g, ks[i]);
    }
  }

  lemma AllValid(g: GoValue, ks: seq<GoString>)
    requires g.GoMap? && forall k :: k in g.m ==> k in ks
    requires forall j :: 0 <= j < |ks| ==> ValidString(ks[j]) && (ks[j] in g.m ==> Valid(g.m[ks[j]]))
    ensures Valid(g)
  {
    forall k | k in g.m ensures ValidString(k) && Valid(g.m[k]) {
      var j :| 0 <= j < |ks| && ks[j] == k;
    }
  }

  // ---------- parity ----------

  // Canonicalize: for every Go value with valid strings, the bytes or the error the TypeScript
  // canonicalizer gives its counterpart; for any other, an error.
  method Canonicalize(g: GoValue) returns (r: Result<Bytes, CanonError>)
    ensures r.Ok? ==> Valid(g)
    ensures Valid(g) ==> r == CanonicalBytes.Canonicalize(Counterpart(g))
  {
    hide PrintValue, Utf8.Encode;
    if !g.GoMap? {
      return Err(InvalidTopLevel);
    }
    var out := new Buffer();
    var wrote := out.WriteObject(g);
    if wrote.Err? {
      return Err(wrote.error);
    }
    assert [] + out.bytes == out.bytes;
    if Valid(g) {
      var p := PrintValue(Counterpart(g)).value;
      assert [] + Utf8.Encode(p) == Utf8.Encode(p);
    }
    return Ok(out.bytes);
  }
}
