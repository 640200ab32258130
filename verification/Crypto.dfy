// Signature algorithms, the ideal signature, and the two tables a verifier consults: which
// backends are registered, and which algorithm each key id is bound to.
module Crypto {
  import opened Base

  datatype Alg = Ed25519 | RsaPss | Hs256

  datatype CryptoError = UnsupportedAlgorithm | AlgorithmAlreadyRegistered | UnknownKid | AlgorithmMismatch

  function AlgName(a: Alg): Text {
    match a
    case Ed25519 => Ascii("ed25519")
    case RsaPss => Ascii("rs256-pss")
    case Hs256 => Ascii("hs256")
  }

  function ParseAlg(t: Text): Option<Alg> {
    if t == AlgName(Ed25519) then Some(Ed25519)
    else if t == AlgName(RsaPss) then Some(RsaPss)
    else if t == AlgName(Hs256) then Some(Hs256)
    else None
  }

  // An ideal signature: what the private half of a key pair signs is a function of the
  // algorithm, the pair and the message, and verifies only as that very signature.
  datatype Backend = Backend(sign: (Alg, Text, Bytes) -> Bytes) {
    predicate Verify(alg: Alg, public: Text, message: Bytes, signature: Bytes) {
      signature == sign(alg, public, message)
    }

    // No two messages share a signature under one key.
    ghost predicate Injective() {
      forall alg, public, m, n :: sign(alg, public, m) == sign(alg, public, n) ==> m == n
    }
  }

  lemma AlgNamesParse(a: Alg)
    ensures ParseAlg(AlgName(a)) == Some(a)
  {
    assert |AlgName(Ed25519)| == 7 && |AlgName(RsaPss)| == 9 && |AlgName(Hs256)| == 5;
  }

  // ---------- AlgorithmRegistry ----------

  class AlgorithmRegistry {
    var backends: set<Alg>
    var order: seq<Alg>

    ghost predicate Valid()
      reads this
    {
      && (forall a :: a in backends <==> a in order)
      && (forall i, j :: 0 <= i < j < |order| ==> order[i] != order[j])
    }

    constructor ()
      ensures Valid() && order == []
    {
      backends, order := {}, [];
    }

    // Each algorithm is registered once.
    method Register(alg: Alg) returns (r: Result<(), CryptoError>)
      requires Valid()
      modifies this
      ensures Valid()
      ensures r == if alg in old(order) then Err(AlgorithmAlreadyRegistered) else Ok(())
      ensures order == if alg in old(order) then old(order) else old(order) + [alg]
    {
      if alg in backends {
        return Err(AlgorithmAlreadyRegistered);
      }
      backends := backends + {alg};
      order := order + [alg];
      return Ok(());
    }

    method Get(alg: Alg) returns (r: Result<Alg, CryptoError>)
      requires Valid()
      ensures r == if alg in order then Ok(alg) else Err(UnsupportedAlgorithm)
    {
      return if alg in backends then Ok(alg) else Err(UnsupportedAlgorithm);
    }
  }

  // ---------- KeyAlgBindings ----------

  function BindResult(bindings: map<Text, Alg>, kid: Text, alg: Alg): Result<map<Text, Alg>, CryptoError> {
    if kid in bindings && bindings[kid] != alg then Err(AlgorithmMismatch) else Ok(bindings[kid := alg])
  }

  function Expected(bindings: map<Text, Alg>, kid: Text, alg: Alg): Result<Alg, CryptoError> {
    if kid !in bindings then Err(UnknownKid)
    else if bindings[kid] != alg then Err(AlgorithmMismatch)
    else Ok(bindings[kid])
  }

  class KeyAlgBindings {
    var bindings: map<Text, Alg>

    constructor ()
      ensures bindings == map[]
    {
      bindings := map[];
    }

    method Bind(kid: Text, alg: Alg) returns (r: Result<(), CryptoError>)
      modifies this
      ensures match BindResult(old(bindings), kid, alg)
        case Ok(next) => r == Ok(()) && bindings == next
        case Err(e) => r == Err(e) && bindings == old(bindings)
    {
      if kid in bindings && bindings[kid] != alg {
        return Err(AlgorithmMismatch);
      }
      bindings := bindings[kid := alg];
      return Ok(());
    }

    method Expect(kid: Text, alg: Alg) returns (r: Result<Alg, CryptoError>)
      ensures r == Expected(bindings, kid, alg)
    {
      if kid !in bindings {
        return Err(UnknownKid);
      }
      if bindings[kid] != alg {
        return Err(AlgorithmMismatch);
      }
      return Ok(bindings[kid]);
    }
  }

  // The bindings after a run of Bind calls, refused ones included.
  function BindAll(bindings: map<Text, Alg>, calls: seq<(Text, Alg)>): map<Text, Alg>
    decreases |calls|
  {
    if calls == [] then bindings
    else
      match BindResult(bindings, calls[0].0, calls[0].1)
      case Ok(next) => BindAll(next, calls[1..])
      case Err(_) => BindAll(bindings, calls[1..])
  }

  // The first algorithm bound to a key id is the only one it is ever expected under.
  lemma {:induction false} FirstBindingStays(bindings: map<Text, Alg>, kid: Text, calls: seq<(Text, Alg)>, alg: Alg)
    requires kid in bindings
    ensures Expected(BindAll(bindings, calls), kid, alg).Ok? <==> bindings[kid] == alg
    decreases |calls|
  {
    if calls != [] {
      var next := BindResult(bindings, calls[0].0, calls[0].1);
      FirstBindingStays(if next.Ok? then next.value else bindings, kid, calls[1..], alg);
    }
  }
}
