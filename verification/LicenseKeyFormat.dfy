// The printed form of license keys: Crockford characters in groups of four behind "LIC-", and
// the normalization every lookup goes through.
module LicenseKeyFormat {
  import opened Base
  import opened LicenseKey

  const PREFIX := Ascii("LIC-")
  const HYPHEN: Unit := 0x2d
  const GROUP := 4
  const MIN_GROUPS := 5

  // The Crockford alphabet 0123456789ABCDEFGHJKMNPQRSTVWXYZ, by position.
  function SymbolOf(d: Digit): Unit {
    if d < 10 then 0x30 + d
    else if d < 18 then 0x41 + d - 10
    else if d < 20 then 0x4a + d - 18
    else if d < 22 then 0x4d + d - 20
    else if d < 27 then 0x50 + d - 22
    else 0x56 + d - 27
  }

  function Chars(d: seq<Digit>): (t: Text)
    ensures |t| == |d|
  {
    seq(|d|, i requires 0 <= i < |d| => SymbolOf(d[i]))
  }

  // Groups of four joined by hyphens, the last possibly shorter.
  function Grouped(t: Text): Text
    decreases |t|
  {
    if |t| <= GROUP then t else t[..GROUP] + [HYPHEN] + Grouped(t[GROUP..])
  }

  method FormatGroups(t: Text) returns (r: Text)
    ensures r == Grouped(t)
  {
    r := [];
    var i := 0;
    while i < |t|
      invariant 0 <= i
      invariant i == 0 ==> r == []
      invariant Grouped(t) == (if i == 0 then Grouped(t) else if i < |t| then r + [HYPHEN] + Grouped(t[i..]) else r)
    {
      var end := if i + GROUP < |t| then i + GROUP else |t|;
      ghost var rest := t[i..];
      ghost var before := r;
      assert i == 0 ==> rest == t;
      if i > 0 {
        r := r + [HYPHEN];
      }
      assert end < |t| ==> rest[..GROUP] == t[i..end] && rest[GROUP..] == t[end..];
      assert end == |t| ==> rest == t[i..end];
      r := r + t[i..end];
      i := i + GROUP;
    }
  }

  // The regular expression's character class 0-9A-HJKMNP-TV-Z.
  predicate IsSymbol(c: Unit) {
    || 0x30 <= c <= 0x39 || 0x41 <= c <= 0x48 || c == 0x4a || c == 0x4b || c == 0x4d || c == 0x4e
    || 0x50 <= c <= 0x54 || 0x56 <= c <= 0x5a
  }

  // How many full groups a text is, joined by hyphens.
  function GroupCount(t: Text): Option<nat>
    decreases |t|
  {
    if |t| < GROUP || exists i :: 0 <= i < GROUP && !IsSymbol(t[i]) then None
    else if |t| == GROUP then Some(1)
    else if t[GROUP] != HYPHEN then None
    else match GroupCount(t[GROUP + 1..]) case None => None case Some(n) => Some(n + 1)
  }

  // The regular expression of a well-formed key.
  predicate IsKey(t: Text) {
    PREFIX <= t && GroupCount(t[|PREFIX|..]).Some? && GroupCount(t[|PREFIX|..]).value >= MIN_GROUPS
  }

  function TrimStart(t: Text): Text {
    if t != [] && IsSpace(t[0]) then TrimStart(t[1..]) else t
  }

  function TrimEnd(t: Text): Text {
    if t != [] && IsSpace(t[|t| - 1]) then TrimEnd(t[..|t| - 1]) else t
  }

  // Upper-casing is the runtime's, given by its value.
  function Normalize(upper: Text -> Text, input: Text): Option<Text> {
    var t := upper(TrimEnd(TrimStart(input)));
    if IsKey(t) then Some(t) else None
  }

  // It leaves capitals, digits and hyphens alone.
  ghost predicate KeepsCapitals(upper: Text -> Text) {
    forall t :: (forall i :: 0 <= i < |t| ==> 0x41 <= t[i] <= 0x5a || 0x30 <= t[i] <= 0x39 || t[i] == HYPHEN) ==>
      upper(t) == t
  }

  function KeyText(bytes: Bytes): Text {
    PREFIX + Grouped(Chars(Encoded(bytes)))
  }

  // The random bytes are a parameter.
  method GenerateLicenseKey(bytes: Bytes) returns (key: Text)
    requires |bytes| == 20
    ensures key == KeyText(bytes)
  {
    hide Encoded, Grouped;
    var digits := Base32EncodeTs(bytes);
    var groups := FormatGroups(Chars(digits));
    return PREFIX + groups;
  }

  // ---------- keys are well formed and canonical ----------

  // The alphabet is exactly the class, each symbol once.
  lemma AlphabetIsClass(c: Unit)
    ensures IsSymbol(c) <==> exists d: Digit :: SymbolOf(d) == c
    ensures forall d, e: Digit :: SymbolOf(d) == SymbolOf(e) ==> d == e
  {
    if IsSymbol(c) {
      var d: Digit :=
        if c <= 0x39 then c - 0x30
        else if c <= 0x48 then c - 0x41 + 10
        else if c <= 0x4b then c - 0x4a + 18
        else if c <= 0x4e then c - 0x4d + 20
        else if c <= 0x54 then c - 0x50 + 22
        else c - 0x56 + 27;
      assert SymbolOf(d) == c;
    }
  }

  lemma {:induction false} GroupsCounted(t: Text, n: nat)
    requires n > 0 && |t| == GROUP * n && forall i :: 0 <= i < |t| ==> IsSymbol(t[i])
    ensures GroupCount(Grouped(t)) == Some(n)
    decreases n
  {
    hide IsSymbol;
    if n > 1 {
      var head, tail := t[..GROUP], t[GROUP..];
      GroupsCounted(tail, n - 1);
      var g := head + [HYPHEN] + Grouped(tail);
      assert g[GROUP + 1..] == Grouped(tail);
      assert forall i :: 0 <= i < GROUP ==> g[i] == t[i];
    }
  }

  lemma {:induction false} KeyCharacters(t: Text)
    ensures GroupCount(t).Some? ==>
      forall i :: 0 <= i < |t| ==> 0x41 <= t[i] <= 0x5a || 0x30 <= t[i] <= 0x39 || t[i] == HYPHEN
    decreases |t|
  {
    if GroupCount(t).Some? {
      if |t| > GROUP {
        KeyCharacters(t[GROUP + 1..]);
      }
      hide GroupCount;
      forall i | 0 <= i < |t| ensures 0x41 <= t[i] <= 0x5a || 0x30 <= t[i] <= 0x39 || t[i] == HYPHEN {
        if i < GROUP {
          assert IsSymbol(t[i]);
        } else if i > GROUP {
          assert t[i] == t[GROUP + 1..][i - GROUP - 1];
        }
      }
    }
  }

  // A well-formed key is its own normal form.
  lemma KeyIsNormal(upper: Text -> Text, t: Text)
    requires KeepsCapitals(upper) && IsKey(t)
    ensures Normalize(upper, t) == Some(t)
  {
    var rest := t[|PREFIX|..];
    KeyCharacters(rest);
    assert t == PREFIX + rest;
    assert PREFIX[0] == 0x4c && PREFIX[1] == 0x49 && PREFIX[2] == 0x43 && PREFIX[3] == HYPHEN;
    assert t[0] == PREFIX[0];
    assert forall i :: 4 <= i < |t| ==> t[i] == rest[i - 4];
  }

  // Normalizing gives well-formed keys, each its own normal form: lookups agree on one text.
  lemma NormalizeIdempotent(upper: Text -> Text, input: Text)
    requires KeepsCapitals(upper) && Normalize(upper, input).Some?
    ensures IsKey(Normalize(upper, input).value)
    ensures Normalize(upper, Normalize(upper, input).value) == Normalize(upper, input)
  {
    KeyIsNormal(upper, Normalize(upper, input).value);
  }

  // Every generated key passes normalization unchanged: 32 symbols in eight groups.
  lemma GeneratedIsNormal(upper: Text -> Text, bytes: Bytes)
    requires KeepsCapitals(upper) && |bytes| == 20
    ensures |KeyText(bytes)| == 43 && Normalize(upper, KeyText(bytes)) == Some(KeyText(bytes))
  {
    hide Normalize, KeepsCapitals;
    EncodedMeans(bytes);
    var t := Chars(Encoded(bytes));
    forall i | 0 <= i < |t| ensures IsSymbol(t[i]) {
    }
    hide Encoded, Chars;
    GroupsCounted(t, 8);
    GroupedSize(t, 8);
    assert KeyText(bytes)[|PREFIX|..] == Grouped(t);
    KeyIsNormal(upper, KeyText(bytes));
  }

  lemma {:induction false} GroupedSize(t: Text, n: nat)
    requires n > 0 && |t| == GROUP * n
    ensures |Grouped(t)| == 5 * n - 1
    decreases n
  {
    if n > 1 {
      GroupedSize(t[GROUP..], n - 1);
    }
  }

  // ---------- different bytes, different keys ----------

  lemma {:induction false} GroupedInjective(s: Text, t: Text)
    requires |s| == |t| && Grouped(s) == Grouped(t)
    ensures s == t
    decreases |s|
  {
    if |s| > GROUP {
      var a, b := Grouped(s), Grouped(t);
      assert a[..GROUP] == s[..GROUP] && b[..GROUP] == t[..GROUP];
      assert a[GROUP + 1..] == Grouped(s[GROUP..]) && b[GROUP + 1..] == Grouped(t[GROUP..]);
      GroupedInjective(s[GROUP..], t[GROUP..]);
      assert s == s[..GROUP] + s[GROUP..] && t == t[..GROUP] + t[GROUP..];
    }
  }

  lemma CharsInjective(c: seq<Digit>, d: seq<Digit>)
    requires Chars(c) == Chars(d)
    ensures c == d
  {
    assert |c| == |Chars(c)| == |Chars(d)| == |d|;
    forall i | 0 <= i < |c| ensures c[i] == d[i] {
      assert Chars(c)[i] == SymbolOf(c[i]) && Chars(d)[i] == SymbolOf(d[i]);
    }
  }

  // 160 random bits make as many different keys.
  lemma KeysDiffer(a: Bytes, b: Bytes)
    requires |a| == |b| && KeyText(a) == KeyText(b)
    ensures a == b
  {
    hide Encoded, Grouped, Chars;
    EncodedMeans(a);
    EncodedMeans(b);
    assert KeyText(a)[|PREFIX|..] == Grouped(Chars(Encoded(a)));
    assert KeyText(b)[|PREFIX|..] == Grouped(Chars(Encoded(b)));
    GroupedInjective(Chars(Encoded(a)), Chars(Encoded(b)));
    CharsInjective(Encoded(a), Encoded(b));
    EncodedInjective(a, b);
  }
}
