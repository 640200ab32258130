// The claims a token's payload carries, as issuance writes them and validation reads them.
module Claims {
  import opened Base
  import opened JsonValue

  const JTI := Ascii("jti")
  const IAT := Ascii("iat")
  const NBF := Ascii("nbf")
  const EXP := Ascii("exp")
  const SCOPE := Ascii("scope")
  const LICENSE_ID := Ascii("license_id")
  const USAGE_ID := Ascii("usage_id")
  const USAGE_FINGERPRINT := Ascii("usage_fingerprint")
  const STATUS := Ascii("status")
  const MAX_USAGES := Ascii("max_usages")
  const FORCE_ONLINE_AFTER := Ascii("force_online_after")
  const ENTITLEMENTS := Ascii("entitlements")
  const META := Ascii("meta")
  const AUD := Ascii("aud")
  const ISS := Ascii("iss")

  type Members = map<Text, Json>

  datatype Claims = Claims(
    jti: Text, iat: int, nbf: int, exp: int, scope: Text, licenseId: Text, usageId: Text, fingerprint: Text,
    status: Text, maxUsages: int, forceOnlineAfter: Option<int>, entitlements: Option<Members>,
    aud: Option<seq<Text>>, iss: Option<Text>)

  predicate Int64(i: int) {
    -0x8000_0000_0000_0000 <= i < 0x8000_0000_0000_0000
  }

  // claimString
  function ClaimString(m: Members, key: Text): Option<Text> {
    if key in m && m[key].Str? then Some(m[key].s) else None
  }

  // claimInt64
  function ClaimInt(m: Members, key: Text): Option<int> {
    if key in m && m[key].Num? && m[key].n.Finite? && IsInteger(m[key].n.r) && Int64(m[key].n.r.Floor)
      then Some(m[key].n.r.Floor)
    else None
  }

  // A present claim that is not null.
  predicate Present(m: Members, key: Text) {
    key in m && !m[key].Null?
  }

  function Strings(items: seq<Json>): Option<seq<Text>> {
    if items == [] then Some([])
    else if !items[0].Str? then None
    else match Strings(items[1..]) case None => None case Some(rest) => Some([items[0].s] + rest)
  }

  function ReadAudience(m: Members): Result<Option<seq<Text>>, ()> {
    if !Present(m, AUD) then Ok(None)
    else if m[AUD].Str? then Ok(Some([m[AUD].s]))
    else if m[AUD].Arr? then (match Strings(m[AUD].items) case Some(s) => Ok(Some(s)) case None => Err(()))
    else Err(())
  }

  function ReadIssuer(m: Members): Result<Option<Text>, ()> {
    if !Present(m, ISS) then Ok(None)
    else if m[ISS].Str? then Ok(Some(m[ISS].s))
    else Err(())
  }

  function Require<T>(o: Option<T>): Result<T, ()> {
    if o.Some? then Ok(o.value) else Err(())
  }

  // assertClaimShape, every failure an invalid token format.
  function ReadClaims(m: Members): Result<Claims, ()> {
    var jti :- Require(ClaimString(m, JTI));
    var iat :- Require(ClaimInt(m, IAT));
    var nbf :- Require(ClaimInt(m, NBF));
    var exp :- Require(ClaimInt(m, EXP));
    var scope :- Require(ClaimString(m, SCOPE));
    var licenseId :- Require(ClaimString(m, LICENSE_ID));
    var usageId :- Require(ClaimString(m, USAGE_ID));
    var fingerprint :- Require(ClaimString(m, USAGE_FINGERPRINT));
    var status :- Require(ClaimString(m, STATUS));
    var maxUsages :- Require(ClaimInt(m, MAX_USAGES));
    var aud :- ReadAudience(m);
    var iss :- ReadIssuer(m);
    Ok(Claims(jti, iat, nbf, exp, scope, licenseId, usageId, fingerprint, status, maxUsages,
              ClaimInt(m, FORCE_ONLINE_AFTER),
              if Present(m, ENTITLEMENTS) && m[ENTITLEMENTS].Obj? then Some(m[ENTITLEMENTS].members) else None,
              aud, iss))
  }

  function Prepended(front: seq<Text>, rest: Option<seq<Text>>): Option<seq<Text>> {
    match rest case None => None case Some(r) => Some(front + r)
  }

  lemma StringsStep(items: seq<Json>, i: nat, out: seq<Text>)
    requires i < |items|
    ensures Prepended(out, Strings(items[i..])) ==
      if items[i].Str? then Prepended(out + [items[i].s], Strings(items[i + 1..])) else None
  {
    assert items[i..][1..] == items[i + 1..];
    if items[i].Str? && Strings(items[i + 1..]).Some? {
      AppendAssoc(out, [items[i].s], Strings(items[i + 1..]).value);
    }
  }

  method ReadStrings(items: seq<Json>) returns (r: Option<seq<Text>>)
    ensures r == Strings(items)
  {
    hide Strings;
    var out: seq<Text> := [];
    StringsEnds(items);
    for i := 0 to |items|
      invariant Strings(items) == Prepended(out, Strings(items[i..]))
    {
      StringsStep(items, i, out);
      if !items[i].Str? {
        return None;
      }
      out := out + [items[i].s];
    }
    assert out + [] == out;
    return Some(out);
  }

  lemma StringsEnds(items: seq<Json>)
    ensures Strings(items) == Prepended([], Strings(items[0..]))
    ensures Strings(items[|items|..]) == Some([])
  {
    assert items[0..] == items;
    if Strings(items).Some? {
      assert [] + Strings(items).value == Strings(items).value;
    }
  }

  // ---------- the names differ ----------

  // Length and first two characters tell the names apart.
  function Mark(t: Text): int {
    if |t| < 2 then 0 else |t| * 0x1_0000 + (t[0] as int - 0x60) * 0x100 + (t[1] as int - 0x60)
  }

  lemma Marks()
    ensures Mark(JTI) == 3 * 0x1_0000 + 10 * 0x100 + 20
    ensures Mark(IAT) == 3 * 0x1_0000 + 9 * 0x100 + 1
    ensures Mark(NBF) == 3 * 0x1_0000 + 14 * 0x100 + 2
    ensures Mark(EXP) == 3 * 0x1_0000 + 5 * 0x100 + 24
    ensures Mark(AUD) == 3 * 0x1_0000 + 1 * 0x100 + 21
    ensures Mark(ISS) == 3 * 0x1_0000 + 9 * 0x100 + 19
    ensures Mark(SCOPE) == 5 * 0x1_0000 + 19 * 0x100 + 3
    ensures Mark(LICENSE_ID) == 10 * 0x1_0000 + 12 * 0x100 + 9
    ensures Mark(MAX_USAGES) == 10 * 0x1_0000 + 13 * 0x100 + 1
    ensures Mark(USAGE_ID) == 8 * 0x1_0000 + 21 * 0x100 + 19
    ensures Mark(USAGE_FINGERPRINT) == 17 * 0x1_0000 + 21 * 0x100 + 19
    ensures Mark(STATUS) == 6 * 0x1_0000 + 19 * 0x100 + 20
    ensures Mark(FORCE_ONLINE_AFTER) == 18 * 0x1_0000 + 6 * 0x100 + 15
    ensures Mark(ENTITLEMENTS) == 12 * 0x1_0000 + 5 * 0x100 + 14
    ensures Mark(META) == 4 * 0x1_0000 + 13 * 0x100 + 5
    ensures Mark(PROTO) == 9 * 0x1_0000 - 1 * 0x100 - 1
  {
  }
}
