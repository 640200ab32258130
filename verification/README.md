# Verified model of the licensing core

This project models the offline licensing system in Dafny and proves what its core promises:
canonical JSON and the strict parser, the encrypted-PKCS#8 DER codec, the token-bucket limiter,
the seat ledger with its paging loops, signing keys and their rotation, both token envelopes with
issuance and validation, the device's refresh and grace machine, template inheritance, and license
keys. The TypeScript and Go sources are meant to agree byte for byte; each part is modelled after
one of them, named in the table, and where both are modelled (canonical JSON, the base-32 encoder)
they are proved equal.

Imperative code is modelled by classes and loops proved equal to functions, and the promises are
lemmas about those functions: over every input, every run, or every reachable state. `dafny verify
dfyconfig.toml` checks everything.

| part | files |
|---|---|
| shared types, UTF-8, UTF-16 order, base-64 | Base, Utf8, Utf16Order, Base64 |
| canonical JSON and strict parsing | JsonValue, CanonicalJson, JsonGrammar, StrictJson, JsonReference, JsonRoundTrip, CanonicalBytes, GoCanonical |
| DER and PEM | Der, DerTheorems, Pem, EncryptedPkcs8, EncryptedPkcs8Theorems |
| rate limiter | TokenBucket, TokenBucketTheorems, TokenBucketLimits, RateLimiter |
| seats and lifecycle | Entities, Paging, Lifecycle, Seats, SeatLedger, UsageService |
| keys | Crypto, Keys, KeyHierarchy, KeyTheorems, KeyRuns, KeyAttestations, KeyRefinement, KeySimulation, KeyTokens |
| tokens | Pae, TokenCodec, TokenTheorems, Claims, Validate, IssueToken, TokenAcceptance, Replay |
| client | Client, ClientRuns |
| templates, license keys | Templates, TemplateTheorems, LicenseKey, LicenseKeyFormat |

Signatures, key derivation and AES-GCM are ideal: parameters with the properties named where they
are used. Random values, clocks, generated identifiers, issuer answers and loaded templates are
parameters. A transaction is all of its writes or none. Numbers are exact integers and reals;
where the source wraps (32-bit shifts, int64 nanoseconds, truncated octets) the model wraps.

## Where the code differs from what is said about it

The model follows the code. Each difference below is stated by a lemma of the table,
with its exact condition or a concrete input.

- A `__proto__` key is assigned as a prototype by the strict parser: it is dropped, and a repeated
  one is not reported.
- The default idle time of the rate limiter is computed in int64 nanoseconds and wraps for a
  capacity to refill ratio beyond about 9.2e8 seconds, so it is not always long enough to fill a
  bucket.
- A configured idle time may be too short for that. Then the sweep is visible, a denied caller can
  be let through before its Retry-After, and a key that is never evicted can exceed capacity plus
  refill rate times the length of an interval.
- Lengths from 2^31 octets on are emitted in four octets but read as negative.
- An object identifier whose first two components make 128 or more is emitted in one octet.
- `RotateSigningKey` accepts a retirement time and ignores it; the incoming key it reports carries
  an identifier that is not stored. At the hierarchy itself a retirement time replaces the attested
  expiry, which ends the outgoing key's attestation.
- Storage allows one active signing key per scope, the hierarchy one per scope and algorithm.
- `Guard` documents a handle with a grace marker; it never returns one.
- After `GraceExpired` a refresh never contacts the issuer again, so only a heartbeat or an
  activation ends that state.
- Suspend and Renew accept more states than the lifecycle diagram and their comments show, so a
  pending license can become active without being activated.
- Pruning removes at exp + skew, the last instant at which validation still accepts.

## Model

| member | source | states |
|---|---|---|
| `JsonRoundTrip.RoundTrip` | typescript/src/canonical-json.ts:39-226 | Every canonical text parses, to its value without `__proto__` properties and with bigints as numbers: nothing else is lost or changed at any depth |
| `JsonRoundTrip.RoundTripExactly` | typescript/src/strict-json.ts:45-269 | `strictParse` of a canonical text gives the very value back if and only if it holds no `__proto__` key and no bigint at any depth |
| `JsonRoundTrip.CanonicalInjective` | typescript/src/canonical-json.ts:39-56 | Equal canonical texts come from equal values (up to bigint against number) |
| `JsonRoundTrip.Recanonicalize` | typescript/src/canonical-json.ts:39-56 | Parsing canonical text and printing it again changes nothing, exactly for values without `__proto__` keys |
| `JsonRoundTrip.ProtoIsLost` | typescript/src/strict-json.ts:79-114 | The concrete failing input: `{"__proto__":null}` is canonical and parses as `{}` |
| `JsonRoundTrip.CanonicalReads` | typescript/src/strict-json.ts:61-269 | The reference parser reads a canonical text as the value's syntax tree: every member once, in key order |
| `JsonReference.StrictParseAgainstReference` | typescript/src/strict-json.ts:79-232 | On every JSON text `strictParse` reports the first repeated key when an object at some depth repeats one, and otherwise agrees with a last-wins parser; the values are equal exactly when no object has the key `__proto__` |
| `JsonReference.StrictParseRejects` | typescript/src/strict-json.ts:45-77 | A text is rejected if and only if it is not JSON or repeats a key in some object |
| `JsonReference.FirstRepeatSound` | typescript/src/strict-json.ts:90-101 | The reported duplicate exists exactly when some object repeats a key |
| `StrictJson.StrictParse` | typescript/src/strict-json.ts:45-59 | The cursor-driven parser returns what the functional grammar says, on all inputs, and terminates |
| `StrictJson.Ctx.ParseValue` | typescript/src/strict-json.ts:61-77 | Dispatch on the first character; the cursor ends where the value ends |
| `StrictJson.Ctx.ParseObject` | typescript/src/strict-json.ts:79-114 | Object scanning with duplicate rejection and assignment on an object literal |
| `StrictJson.Ctx.ParseArray` | typescript/src/strict-json.ts:116-138 | Array scanning, item by item |
| `StrictJson.Ctx.ParseString` | typescript/src/strict-json.ts:140-170 | The fast path over plain characters equals a one-pass decoder |
| `StrictJson.Ctx.ParseStringSlow` | typescript/src/strict-json.ts:171-232 | So does the slow path with its escapes, continued from any prefix |
| `StrictJson.Ctx.ParseNumber` | typescript/src/strict-json.ts:234-269 | RFC 8259 number grammar, and the overflow of a literal to Infinity |
| `CanonicalJson.PrintsExactlyExpressible` | typescript/src/canonical-json.ts:59-121 | Printing succeeds on exactly null, booleans, safe integers, well-formed strings, and arrays and objects of them |
| `CanonicalJson.CanonicalizeToString` | typescript/src/canonical-json.ts:53-57 | The writer over one shared output produces the printed text, or the printer's error |
| `CanonicalJson.Output.WriteValue` | typescript/src/canonical-json.ts:59-102 | Every branch appends the value's text |
| `CanonicalJson.Output.WriteObject` | typescript/src/canonical-json.ts:132-156 | Keys are enumerated in any order, sorted in place and written once each |
| `CanonicalJson.Output.WriteString` | typescript/src/canonical-json.ts:165-226 | Validation first, then the escapes; surrogate pairs go out raw |
| `CanonicalJson.ValidateUtf16` | typescript/src/canonical-json.ts:228-251 | Accepts exactly the texts in which every surrogate is half of a pair |
| `CanonicalJson.SortedEnumeration` | typescript/src/canonical-json.ts:132-142 | However the keys are enumerated, the written order is the same |
| `Utf16Order.StrictTotalOrder` | typescript/src/canonical-json.ts:158-161 | The comparator is a strict total order on UTF-16 code units |
| `Utf16Order.SortUnique` | typescript/src/canonical-json.ts:132-161 | A set of keys has one ascending listing, so canonical text depends only on the value |
| `CanonicalBytes.PrintedWellFormed` | typescript/src/canonical-json.ts:165-226 | Canonical texts have no unpaired surrogate |
| `CanonicalBytes.BytesRoundTrip` | typescript/src/lic1.ts:252-273 | Decoding and parsing canonical bytes gives the value back, with the same exact condition as for texts |
| `CanonicalBytes.BytesInjective` | typescript/src/canonical-json.ts:39-41 | Equal canonical bytes come from equal values |
| `Utf8.RoundTripExactly` | typescript/src/lic1.ts:39-40 | A text survives TextEncoder and a fatal TextDecoder exactly when it is well formed and does not begin with U+FEFF |
| `Utf8.EncodeInjective` | typescript/src/lic1.ts:39-40 | Different well-formed texts have different encodings |
| `Utf8.EncodesDecoded` | typescript/src/lic1.ts:252-259 | Every byte string that decodes is the encoding of its text |
| `GoCanonical.Canonicalize` | licensing/canonical.go:40-50 | For every Go value whose strings are valid UTF-8, the Go writer gives the bytes, or the error, of the TypeScript canonicalizer on the corresponding value; any other value is an error |
| `GoCanonical.Buffer.WriteValue` | licensing/canonical.go:64-127 | The same for every dynamic type |
| `GoCanonical.Buffer.WriteString` | licensing/canonical.go:266-312 | The byte-wise escaper writes the UTF-8 of the unit-wise escaped text, and refuses exactly invalid UTF-8 |
| `GoCanonical.CompareUTF16` | licensing/canonical.go:223-253 | The comparison with its ASCII byte path is the order of the UTF-16 transcodes |
| `GoCanonical.TranscodeAscii` | licensing/canonical.go:224-234 | Why the fast path is right: ASCII strings are their own transcodes |
| `GoCanonical.BytesWouldMisorder` | licensing/canonical.go:235-253 | Without the ASCII guard it would be wrong: U+FFFD and U+10000 sort the other way round in bytes |
| `GoCanonical.SortedKeysTranscode` | licensing/canonical.go:191-198 | Sorting byte keys gives the canonical order of text keys for every map iteration order |
| `Der.LengthIsShortest` | typescript/src/encrypted-pkcs8.ts:56-62 | Among all definite length encodings (X.690 section 8.1.3) of a length below 2^32 the emitter's is the one shortest (section 10.1) |
| `Der.LengthIsExact` | typescript/src/encrypted-pkcs8.ts:56-62 | The emitted octets denote the length if and only if it is below 2^32 |
| `Der.IntegerIsMinimal` | typescript/src/encrypted-pkcs8.ts:134-149 | The INTEGER body is the one minimal two's-complement encoding (X.690 section 8.3) of the number |
| `Der.Integer` | typescript/src/encrypted-pkcs8.ts:134-149 | The shifting loop emits that body, and refuses numbers outside [0, 2^31) |
| `Der.BufToUint` | typescript/src/encrypted-pkcs8.ts:375-380 | Reads a body back as its big-endian value, refusing unsafe integers |
| `Der.WriteOidBody` | typescript/src/encrypted-pkcs8.ts:91-110 | The base-128 loops, with 32-bit shifts and truncation to octets |
| `DerTheorems.OidIsExact` | typescript/src/encrypted-pkcs8.ts:91-110 | Decoding by X.690 section 8.19 gives the components back if and only if the first two fit one octet below 128 and are a legal pair, and the others are below 2^32 |
| `Der.Tlv` | typescript/src/encrypted-pkcs8.ts:64-71 | Tag, length and content laid out in one buffer |
| `Der.ConcatParts` | typescript/src/encrypted-pkcs8.ts:73-83 | The running-offset copy is concatenation |
| `Der.ParseTlv` | typescript/src/encrypted-pkcs8.ts:192-214 | The parser with its signed 32-bit length and JavaScript slice |
| `DerTheorems.ReadLengthMeans` | typescript/src/encrypted-pkcs8.ts:203-211 | Its shifts compute the length modulo 2^32, read as signed |
| `DerTheorems.ParseOfTlv` | typescript/src/encrypted-pkcs8.ts:192-214 | At any place in a buffer the parser returns what `tlv` wrapped if and only if the content is shorter than 2^31 octets |
| `EncryptedPkcs8.WrapEncryptedPkcs8` | typescript/src/encrypted-pkcs8.ts:230-267 | The whole emitter, salt and nonce given |
| `EncryptedPkcs8.UnwrapEncryptedPkcs8` | typescript/src/encrypted-pkcs8.ts:277-373 | The whole walk, profile check and decryption |
| `EncryptedPkcs8Theorems.WalkOfEmit` | typescript/src/encrypted-pkcs8.ts:277-327 | Below 2^31 octets the walk over any emitted envelope, with any salt, nonce, data and INTEGERs in range, recovers every field through all levels |
| `EncryptedPkcs8Theorems.WalkShortened` | typescript/src/encrypted-pkcs8.ts:192-214 | From 2^31 octets on it never recovers the data: the content comes back shortened |
| `EncryptedPkcs8Theorems.OpensExactly` | typescript/src/encrypted-pkcs8.ts:329-373 | An envelope opens to a plaintext exactly when its fields are the fixed profile and its data is the plaintext sealed under the derived key: no weaker derivation or other cipher opens |
| `EncryptedPkcs8Theorems.WrapRoundTripExactly` | typescript/src/encrypted-pkcs8.ts:230-373 | A wrapped key opens to its plaintext if and only if the plaintext is shorter than 2^31 - 124 octets |
| `Pem.ToPem` | typescript/src/encrypted-pkcs8.ts:165-170 | Lines of 64 characters between the markers |
| `Pem.ArmorRoundTrip` | typescript/src/encrypted-pkcs8.ts:172-182 | The armor of any bytes comes off again: no earlier END marker, white space removed |
| `Base64.PaddedRoundTrip` | typescript/src/encrypted-pkcs8.ts:165-182 | The runtime's decoder undoes its padded encoder |
| `Base64.UrlRoundTrip` | typescript/src/base64url.ts:15-45 | base64url decodes every encoded byte string to itself |
| `Base64.EncodeMeans` | typescript/src/base64url.ts:15-26 | The encoding has no padding and only URL characters |
| `Base64.DecodeAccepts` | typescript/src/base64url.ts:28-34 | Decoding accepts exactly the texts over the URL alphabet |
| `Base64.UrlSpelling` | typescript/src/base64url.ts:28-45 | An accepted text is the encoding of its bytes if and only if it has no lone last character and no stray low bits; other spellings are accepted too |
| `RateLimiter.Limiter.Take` | licensing/http/rate_limiter.go:187-231 | The map and list limiter with eviction and sweep does what the functional `Take` says; map and list hold the same entries throughout |
| `RateLimiter.Limiter.EvictLRU` | licensing/http/rate_limiter.go:235-244 | Eviction removes the back of the list and its map entry |
| `RateLimiter.Limiter.MaybeSweep` | licensing/http/rate_limiter.go:248-267 | The sweep loop drops from the back while stale |
| `TokenBucket.TakeKeepsInv` | licensing/http/rate_limiter.go:187-267 | Under a nondecreasing clock: distinct keys, at most MaxKeys of them, list ordered by last tick, tokens within capacity |
| `TokenBucket.RunKeepsInv` | licensing/http/rate_limiter.go:187-267 | The same over every run |
| `TokenBucket.SweepIsExact` | licensing/http/rate_limiter.go:248-267 | A sweep removes exactly the stale buckets although it stops at the first fresh one |
| `TokenBucketTheorems.SweepIsInvisible` | licensing/http/rate_limiter.go:187-267 | When the idle time lets any bucket fill, every run decides as the limiter that never sweeps, evictions included |
| `TokenBucketTheorems.SweepIsInvisibleFromStart` | licensing/http/rate_limiter.go:187-267 | In particular from an empty limiter |
| `TokenBucketTheorems.IdleFillsMeans` | licensing/http/rate_limiter.go:81-91 | The condition is IdleTTL >= capacity / refill rate |
| `TokenBucketTheorems.DefaultIdleFills` | licensing/http/rate_limiter.go:81-91 | The default idle time meets it if and only if its nanoseconds, s * 10^9 with s the whole seconds of ten windows, fit int64, or exceed a multiple of 2^64, the first to the fourth, by an int64 remainder of at least a window |
| `TokenBucketTheorems.DefaultIdleWraps` | licensing/http/rate_limiter.go:81-91 | Both happen beyond int64: a ratio of 10^9 seconds wraps to a default that is too short, one of 2.1 * 10^9 to one that is long enough |
| `TokenBucketTheorems.AllowedWithinLevel` | licensing/http/rate_limiter.go:187-267 | In any run whatever, evictions and early sweeps included, a key gets at most its level at the start, what accrues, and the tokens its buckets lacked when they were dropped |
| `TokenBucketTheorems.Throughput` | licensing/http/rate_limiter.go:187-231 | A key whose bucket is never dropped, swept or evicted, before it is full gets at most capacity + RefillRate * T takes in any interval of length T, whatever the configuration |
| `TokenBucketLimits.ThroughputUnevicted` | licensing/http/rate_limiter.go:187-267 | The bound holds for every key that is not evicted, provided a bucket fills within the idle time (or a nanosecond more, the least age at which it is swept) or capacity is below one token |
| `TokenBucketLimits.ShortIdleBreaksThroughput` | licensing/http/rate_limiter.go:248-267 | Otherwise it fails, to within a nanosecond: with capacity at least 1 and a bucket not overfilled in the idle time plus two nanoseconds, some run from an empty limiter exceeds it for a key that is never evicted |
| `TokenBucketLimits.ShortIdleShows` | licensing/http/rate_limiter.go:248-267 | Under the same condition the sweep is visible: some run is decided otherwise than without it |
| `TokenBucketLimits.ShortIdleIsVisible` | licensing/http/rate_limiter.go:248-267 | The smallest case: two calls of one key two seconds apart are both allowed where the unswept limiter denies the second and the bound is 1.2 |
| `TokenBucketTheorems.RetryAfterIsEnough` | licensing/http/rate_limiter.go:214-231 | With capacity at least 1, a caller who waits an uncapped Retry-After with no take of its own in between is allowed, whatever others do |
| `TokenBucketTheorems.RetryAfterIsLeast` | licensing/http/rate_limiter.go:214-231 | And the advice is at most a second too long: a caller who waits a whole second less, or even less, is denied again if and only if it waits no longer than the idle time, after which its bucket is swept |
| `Paging.OneOrder` | licensing/cursor.go:72-97 | CompareDesc and IsAfter describe one strict total order |
| `Paging.OrderedUnique` | licensing/cursor.go:72-85 | However a table enumerates its rows, the listing is the same |
| `Paging.NextPage` | licensing/cursor.go:88-97 | Keyset paging over an unchanging listing gives consecutive pages |
| `Paging.NextPageOfRest` | licensing/cursor.go:88-97 | And the same pages when rows already seen have left the listing, which an offset would not |
| `UsageService.Tx.CountActiveUsages` | licensing/usage_service.go:254-275 | The paged count is exact for every page size |
| `UsageService.Tx.FindActiveUsage` | licensing/usage_service.go:226-252 | The paged search finds the first seat of the device, or none exists |
| `UsageService.Tx.ReleaseAllSeats` | licensing/license_service.go:197-223 | Revoking while paging over the active filter revokes every seat active at the start exactly once, and terminates |
| `UsageService.Storage.RegisterUsage` | licensing/usage_service.go:46-139 | The transaction does what `Seats.Register` says, or nothing |
| `UsageService.Storage.RevokeUsage` | licensing/usage_service.go:143-205 | The same for a revocation |
| `UsageService.Storage.RotateLicenseKey` | licensing/license_service.go:159-253 | The same for a key rotation |
| `UsageService.Storage.SweepInactiveUsages` | licensing/usage_service.go:314-383 | Collect, then revoke: exactly the stale seats, in listing order; a dry run changes nothing; a non-positive duration is refused |
| `SeatLedger.RotationIsExact` | licensing/license_service.go:197-223 | A rotation revokes every seat active at its start exactly once and touches no other row |
| `SeatLedger.StepKeepsValid` | licensing/usage_service.go:46-205 | Every service call keeps the ledger balanced, one seat per device, and the audit rows chained |
| `SeatLedger.RunKeepsValid` | licensing/usage_service.go:46-383 | So does every run |
| `SeatLedger.LedgerBalances` | licensing/license_service.go:229-244 | From an empty database: active seats = registered - revoked - rotated away; no two active seats of a license share a fingerprint |
| `SeatLedger.GrowsOnlyBelowLimit` | licensing/usage_service.go:72-83 | A license's seats grow only while below max_usages |
| `SeatLedger.StepKeepsLimit` | licensing/usage_service.go:72-83 | A call keeps a license within its limit exactly when it does not lower the limit below the seats in use |
| `SeatLedger.RunKeepsLimit` | licensing/usage_service.go:46-139 | So the limit holds over every run that never lowers it so |
| `SeatLedger.RevokedStays` | licensing/lifecycle.go:133-150 | A revoked license stays revoked and takes no seats, whatever is called, until it is deleted |
| `Lifecycle.SweepsAreInvisible` | licensing/lifecycle.go:207-241 | Any ticks at times up to t leave the effective status at t unchanged |
| `Lifecycle.LaterSweepIsVisible` | licensing/lifecycle.go:207-241 | The bound is needed: a later tick shows |
| `Lifecycle.RevokedIsAbsorbing` | licensing/lifecycle.go:64-247 | No transition leaves the revoked status |
| `Lifecycle.AcceptsExactly` | licensing/lifecycle.go:64-205 | Every transition accepts exactly its documented states, but Suspend also pending, grace and expired licenses, and Renew also pending ones |
| `Lifecycle.PendingBypassesActivation` | licensing/lifecycle.go:64-205 | So a pending license that is renewed, or suspended and resumed, is active without ever having been activated |
| `Lifecycle.ExpiredRevives` | licensing/lifecycle.go:88-131 | And an expired one that is suspended and resumed is stored as active, and read as active exactly while its end date is not past |
| `Lifecycle.NoWriteNoChange` | licensing/lifecycle.go:64-273 | A transition that writes no audit row changes nothing |
| `Keys.InMemoryKeyStore.Put` | licensing/key_hierarchy.go:84-95 | The two-map insert |
| `Keys.InMemoryKeyStore.Update` | licensing/key_hierarchy.go:154-168 | The two-map replace |
| `Keys.InMemoryKeyStore.List` | licensing/key_hierarchy.go:122-150 | Each passing record exactly once |
| `Keys.StorageKeyStore.Put` | licensing/scope_service.go:318-347 | Insert under the storage's id, remembered in the id map; unique kid, one active signing key per scope |
| `Keys.StorageKeyStore.Update` | licensing/scope_service.go:384-402 | Only the patched columns move, on the resolved id |
| `KeyHierarchy.KeyHierarchy.GenerateRootKey` | licensing/key_hierarchy.go:309-362 | A root key is stored, or nothing is |
| `KeyHierarchy.KeyHierarchy.IssueSigningKey` | licensing/key_hierarchy.go:390-482 | Issuing under a root, over either store |
| `KeyHierarchy.KeyHierarchy.RotateSigningKeys` | licensing/key_hierarchy.go:516-577 | Demote, issue, link, over either store, with what a failure leaves behind |
| `KeyRuns.RunIsSound` | licensing/key_hierarchy.go:390-577 | In every run over either store, failed and partial rotations included, each scope and algorithm has at most one active signing key, and no record loses its kid, algorithm, role, scope or key material |
| `KeyRuns.RunKeepsVerifying` | licensing/verify.go:47-93 | A signature verifies under a known kid after any run exactly when it did before it |
| `KeyTokens.VerdictStays` | licensing/verify.go:47-93 | Under the tables drawn from the stored keys, any token's verdict is the same after any run of key operations, unless its kid was unknown |
| `KeyTokens.IssuedStaysValid` | licensing/token_service.go:181-261 | A token issued in either format validates after any further run of key operations, under the keys then stored, exactly within its window, with its claims as issued |
| `KeyTokens.TokensOutliveRotations` | licensing/scope_service.go:232-295 | In particular from an empty store: whatever run set up the keys and whatever rotations follow, the issued token validates exactly within its window |
| `KeyRuns.RotateExtendsLineage` | licensing/scope_service.go:232-295 | RotateSigningKey changes nothing, or puts one new active key in front of a lineage whose earlier keys are all retiring and linked; other lineages stay |
| `KeyRuns.ServicesKeepLineage` | licensing/scope_service.go:83-295 | From no keys, after any run of the services, the signing keys of a scope and algorithm are one chain, newest first, the first active and the others retiring: exactly what following rotated_from lists |
| `KeyRuns.RetirementIsIgnored` | licensing/scope_service.go:241-256 | The retirement time the caller asks for does not change the rotation |
| `KeyRuns.ReportedIncomingId` | licensing/scope_service.go:257-270 | The reported incoming key carries the hierarchy's id, under which no row is stored; the outgoing one is its stored row |
| `KeyAttestations.ServicesKeepAttestations` | licensing/key_hierarchy.go:640-690 | Every signing key's root attestation verifies after any run of the services |
| `KeyAttestations.RetiringChangesAttestation` | licensing/key_hierarchy.go:544-556 | After a rotation that sets the outgoing key's expiry its attestation verifies if and only if that expiry is the attested one |
| `KeyAttestations.StatementDetermines` | licensing/key_hierarchy.go:784-797 | The canonical statement determines the expiry it attests |
| `KeyRefinement.IssueRefines` | licensing/scope_service.go:297-402 | Issuing over storage refines issuing in memory up to renaming ids, and fails where memory succeeds exactly when another algorithm has an active key in the scope |
| `KeyRefinement.RotateRefines` | licensing/scope_service.go:297-402 | The same for a rotation; one that fails in both leaves corresponding rows behind, and where storage alone refuses, for another algorithm's active key, it leaves exactly the outgoing key demoted |
| `KeySimulation.StepRefines` | licensing/scope_service.go:297-402 | Every operation, root keys included: the two stores give the same outcome if and only if it is not one that memory accepts beside another algorithm's active key, and then correspond up to ids |
| `KeySimulation.RunRefines` | licensing/scope_service.go:297-402 | So over whole runs: all outcomes agree if and only if no such operation occurs, and then the stores correspond at the end |
| `KeySimulation.RunsAgree` | licensing/scope_service.go:297-402 | In particular from empty stores |
| `Crypto.AlgorithmRegistry.Register` | licensing/crypto.go:106-118 | A second registration is refused and changes nothing |
| `Crypto.KeyAlgBindings.Bind` | licensing/crypto.go:170-181 | A kid is never rebound to another algorithm |
| `Crypto.FirstBindingStays` | licensing/crypto.go:170-199 | After any run of Bind calls a bound kid is expected under its first algorithm only |
| `Pae.Encode` | typescript/src/lic2.ts:84-103 | The running-offset encoder writes the Pre-Authentication Encoding (PASETO "Common", section "PAE Definition") |
| `Pae.WriteLe64` | typescript/src/lic2.ts:64-73 | Eight octets, top bit cleared |
| `Pae.Le64Exactly` | typescript/src/lic2.ts:64-73 | Two lengths share an encoding if and only if they agree modulo 2^63 |
| `Pae.EncodingInjective` | typescript/src/lic2.ts:84-103 | Lists of pieces shorter than 2^63 have different encodings |
| `TokenTheorems.Lic1RoundTrip` | typescript/src/lic1.ts:70-133 | A LIC1 token decodes to its algorithm, kid and payload, or is malformed exactly for the empty kid |
| `TokenTheorems.Lic2RoundTrip` | typescript/src/lic2.ts:133-211 | The same for LIC2, signatures having 64 octets |
| `TokenCodec.WriteLic1` | typescript/src/lic1.ts:70-78 | Issuing a LIC1 token |
| `TokenCodec.WriteLic2` | typescript/src/lic2.ts:191-211 | Issuing a LIC2 token: message and signature copied into one buffer |
| `TokenCodec.ReadLic1` | typescript/src/lic1.ts:108-127 | Segments, base64url, strict header, payload |
| `TokenCodec.ReadLic2` | typescript/src/lic2.ts:133-182 | Segments, signature split, footer, payload |
| `TokenCodec.Verify` | licensing/verify.go:47-93 | Decode, binding, backend, record, signature, in this order |
| `TokenCodec.CodecRegistry.RegisterCodec` | typescript/src/token-codec.ts:117-122 | A duplicate prefix is rejected and the first codec stays |
| `TokenCodec.CodecRegistry.Select` | typescript/src/token-codec.ts:137-144 | The first codec whose prefix the token carries |
| `TokenTheorems.DispatchByPrefix` | typescript/src/token-codec.ts:137-144 | When no prefix begins another, dispatch does not depend on registration order |
| `TokenTheorems.Lic1InputDetermines` | typescript/src/lic1.ts:70-78 | A LIC1 signing input determines header and payload |
| `TokenTheorems.Lic2InputDetermines` | typescript/src/lic2.ts:105-112 | A LIC2 signing input determines message and footer |
| `TokenTheorems.InputsDisjoint` | typescript/src/lic2.ts:105-112 | No LIC1 signing input is a LIC2 signing input |
| `TokenTheorems.AcceptedIsIssued` | licensing/verify.go:47-93 | An accepted token that carries an issued token's signature has its kid and payload, whatever else of it was changed, its format included |
| `IssueToken.IssueFor` | licensing/token_service.go:98-288 | Every check of issuance in order, the payload built claim by claim |
| `IssueToken.ForceOnlineBounds` | licensing/token_service.go:335-381 | A deadline lies between issuance and the ten-year horizon, strictly after issuance when it comes from the license |
| `TokenAcceptance.IssuedTokenAccepted` | licensing/token_service.go:181-261 | A token issued in either format validates at a time if and only if iat - skew <= now <= exp + skew and the online deadline, if any, has not come; its claims come back as issued |
| `TokenAcceptance.ClaimsRead` | licensing/client/validate.go:277-362 | The claims read back are the ones issuance wrote |
| `TokenAcceptance.EntitlementsKept` | licensing/token_service.go:383-399 | Entitlements come back unchanged if and only if they hold no `__proto__` key and no bigint |
| `Validate.ValidateToken` | licensing/client/validate.go:82-206 | Verification, claim shape, window, status, deadline, fingerprint, pins, ledger, in this order |
| `Validate.PeekAgrees` | licensing/client/validate.go:238-258 | Peeking reads the lifetime validation reads |
| `Claims.ReadStrings` | licensing/client/validate.go:333-350 | An audience array is read only when every item is a string |
| `Validate.MemoryJtiLedger.RecordJtiUse` | licensing/client/jti_ledger.go:57-65 | Records a jti once |
| `Validate.MemoryJtiLedger.PruneExpired` | licensing/client/jti_ledger.go:68-79 | Removes exactly the entries due by now, and counts them |
| `Replay.AcceptedExactly` | licensing/client/jti_ledger.go:57-79 | In any run a token whose checks pass is accepted if and only if every earlier acceptance of its jti was followed by a prune at or after its due time |
| `Replay.AcceptedAnewExactly` | licensing/client/jti_ledger.go:57-79 | Under a nondecreasing clock a token already accepted is accepted anew if and only if a prune ran in between at the very instant exp + skew |
| `Replay.SecondAcceptance` | licensing/client/jti_ledger.go:57-79 | A jti is accepted a second time only after a prune no earlier than the first token's due time and no later than the second's |
| `Replay.AtMostOnce` | licensing/client/validate.go:179-188 | With no validation at the instant of an earlier prune, a token is accepted at most once in any run under a nondecreasing clock |
| `Replay.ReplayedAtPrune` | licensing/client/jti_ledger.go:68-79 | The proviso is needed: at exp + skew a token is accepted, pruned and accepted again |
| `Client.Refresh` | licensing/client/refresh.go:71-150 | The refresh primitive on the token store, branch by branch |
| `Client.SendOneHeartbeat` | licensing/client/heartbeat.go:124-176 | Clears the marker on success and the store when the license is revoked or suspended |
| `Client.EasyClient.RefreshNow` | licensing/easy/client.go:235-283 | The health probe decides whether grace stands; a marker just written is rolled back |
| `Client.EasyClient.Guard` | licensing/easy/client.go:329-384 | Refresh, re-read, validate, build the handle |
| `Client.MemoryTokenStore.Write` | licensing/client/token_store.go:49-54 | The store holds what was written last |
| `ClientRuns.RunKeepsMarked` | licensing/client/refresh.go:118-131 | In every run a grace marker stands only beside a token whose online deadline had passed when it was set |
| `ClientRuns.RunKeepsMarker` | licensing/client/refresh.go:92-131 | Until the issuer is heard from, a marker does not move and the token stays |
| `ClientRuns.SetOnce` | licensing/client/refresh.go:92-131 | Between two settings of the marker the issuer is heard from |
| `ClientRuns.GraceInWindow` | licensing/client/refresh.go:118-131 | With a positive window a refresh gives grace only in [start, start + window), start being the stored marker, or now when it is just set |
| `ClientRuns.ExpiredForGood` | licensing/client/refresh.go:85-90 | From start + window on, every refresh and guard fails with GraceExpired and the issuer is not asked |
| `ClientRuns.ExpiredRun` | licensing/easy/client.go:235-384 | Refreshing and guarding alone never leave that state |
| `ClientRuns.NoWindowNoMarker` | licensing/client/refresh.go:109-112 | With no grace window no marker is ever set |
| `ClientRuns.GuardBeforeDeadline` | licensing/easy/client.go:329-384 | Guard succeeds only before the online deadline of the token it leaves stored |
| `ClientRuns.GuardNeverInGrace` | licensing/easy/client.go:365-384 | So in no run does Guard return a license while a grace marker stands |
| `Templates.Resolve` | licensing/templates/resolve.go:37-86 | The walk and the merges, for any loader |
| `Templates.DeepMerge` | licensing/templates/resolve.go:91-106 | The loop over the overriding map is the recursive merge |
| `TemplateTheorems.WalkFollows` | licensing/templates/resolve.go:41-66 | On any parent graph, cycles included: at most five distinct ancestors, each what its child's parent id loads, and the walk ends only at a root, a template seen before, a missing one or the cap, which is what truncated reports |
| `TemplateTheorems.ResolvesNearest` | licensing/templates/resolve.go:68-86 | A plain value stands at a path of the result if and only if the nearest template with anything there has it |
| `TemplateTheorems.ChildWins` | licensing/templates/resolve.go:91-106 | The merge at every path: the child's value, merged where both have one, else the parent's unless the child blocks the way |
| `TemplateTheorems.MergeEmpty` | licensing/templates/resolve.go:91-106 | The empty map is an identity |
| `TemplateTheorems.MergeIdempotent` | licensing/templates/resolve.go:91-106 | Merging a value into itself changes nothing |
| `TemplateTheorems.MergeAgain` | licensing/templates/resolve.go:91-106 | Re-applying the leaf changes nothing |
| `TemplateTheorems.MergeAssociativeExactly` | licensing/templates/resolve.go:91-106 | Grouping does not matter if and only if, wherever the middle operand cuts an object off, the first has no key path the third lacks |
| `TemplateTheorems.MergeAssociative` | licensing/templates/resolve.go:91-106 | In particular when the middle operand cuts no object off |
| `LicenseKey.Base32EncodeTs` | typescript/src/license-key.ts:73-89 | The encoder over a signed 32-bit accumulator emits the digits of the right-padded bits |
| `LicenseKey.Base32EncodeGo` | licensing/license_key.go:67-83 | So does the one over an unsigned 64-bit accumulator |
| `LicenseKey.EncodedMeans` | typescript/src/license-key.ts:73-89 | The ceil(8n/5) digits, read as one number, are the octets' number shifted left by the padding: no bit is lost to wrapping |
| `LicenseKey.EncodedInjective` | typescript/src/license-key.ts:73-89 | Different byte strings of one length have different digits |
| `LicenseKeyFormat.FormatGroups` | typescript/src/license-key.ts:92-98 | Groups of four joined by hyphens |
| `LicenseKeyFormat.GenerateLicenseKey` | typescript/src/license-key.ts:41-46 | The printed key of twenty random bytes |
| `LicenseKeyFormat.AlphabetIsClass` | typescript/src/license-key.ts:30-33 | The alphabet is exactly the regular expression's class, each symbol once |
| `LicenseKeyFormat.GeneratedIsNormal` | typescript/src/license-key.ts:41-59 | Every generated key passes normalization unchanged |
| `LicenseKeyFormat.NormalizeIdempotent` | typescript/src/license-key.ts:55-59 | A normalized key is its own normal form |
| `LicenseKeyFormat.KeysDiffer` | typescript/src/license-key.ts:41-46 | Different random bytes give different keys |

## Left out

- Cryptographic primitives, random generation, PBKDF2 and AES-GCM: ideal functions stand for them.
- HTTP handlers, middleware, transport, the admin interface, command lines, file and database adapters, migrations.
- Calendar timestamps: instants are ordered integers (texts where only equality matters), and one clock reading gives its Unix seconds.
- The Go DER layout, whose field order differs from the TypeScript emitter's.
- Rounding of doubles: a number is its exact value, and a literal overflows to Infinity at the IEEE bound; depth limits of the call stack.
- TokenCodec.HeaderOf: reads own properties only, so a header whose four fields stand inside a `__proto__` object is rejected here and accepted by the source.
- TokenCodec.FooterOf: the same for a footer's kid.
- TokenBucketLimits.ShortIdleBreaksThroughput: between one and two nanoseconds beyond the idle time neither it nor ThroughputUnevicted decides, because the tokens left over at whole nanoseconds depend on the rates.
- Go's JSON decoder: tokens are decoded by the TypeScript parser; Go reads the literals `-0`, `1.0` and `1e3` through json.Number differently from a number.
- LIC2's footer and payload errors from the strict parser are reported with LIC1's two error kinds.
- EncodeCursor and DecodeCursor, the cursor's wire form: a cursor is its tuple.
- The paging loops of storageKeyStore.List and findFirstActiveKey, and the order of key listings: paging is proved for usages, and the hierarchy uses a listing only for how many keys it has.
- Audit rows of key operations; license and scope creation beyond what the ledger needs.
- Concurrent interleavings: calls arrive with nondecreasing times and run one at a time; the sweep's transactions are taken together, and a heartbeat's read and clear are one step.
- A bare RotateSigning outside a transaction keeps one active key at most but is not claimed to be atomic.
- FileTokenStore: MemoryTokenStore stands for the token store.
- The health probe and the issuer's answers beyond the three kinds the client tells apart.
- Characters outside the base-64 alphabets in a PEM body: the runtime's decoder is modelled as skipping them.
- Unicode upper-casing in license key normalization: any function that keeps capitals, digits and hyphens; Go trims a slightly different set of spaces.
- int64 extremes in sums of claims: claims are read within int64 and added without wrap-around.
- defaultMakeKid, error-to-status tables, schema descriptions, statistics, UUID layout: table-like.
