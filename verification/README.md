# Ninsho, verified

A Dafny model of the parts of Ninsho on which its guarantees rest, and proofs of those guarantees. Every
function below is a model of code in `packages/client`, `packages/webauthn` or `packages/server`; nothing here
is executed. `dafny verify dfyconfig.toml` checks the whole project.

## What is modelled

**The browser client** (`Client`, `ClientRuns`, `ClientInvariant`, `ClientKeys`, `ClientLaws`, `ClientEffects`,
`ClientScenarios`). The piece of code between two `await`s is one function on the client's fields, and the class
`NinshoClient` performs each piece in place. `ClientRuns` lets any number of fetches, refreshes, sign-ins,
sign-outs, key initialisations and peer notices interleave under an arbitrary scheduler, with every request
answered in any way, every proof or body failing at will, and a key store that may fail. A sign-in that waits
for a sign-out resumes only once the sign-out's slot is free, as the order of the awaits guarantees. The laws
are about all runs; the effects say what each step leaves in each field, and the scenarios that the calls get to
their ends.

**The binary codecs** (`Cbor`, `CborReader`, `CborEncoder`, `CborLaws`, `Der`, `DerSignature`, `Asn1`,
`Base128`, `Oid`, `Certificates`, `AndroidKey`, `AuthData`, `Tpm`, `Cose`, `Base64Url`). Each parser is stated
as a function, proved to be what the cursor-moving reader computes, and related to the independently written
printer: what the one prints the other reads, and what the other accepts the one has printed. Where that fails,
the exact condition is proved. The formats are those of section 3 of RFC 8949, sections 8.1.2, 8.1.3, 8.3, 8.19
and 10.1 of ITU-T X.690, section 4.1 of RFC 5280, section 6.1 of Web Authentication Level 3 and sections 10.12.8
and 12.2.4 of the TPM 2.0 Library, Part 2.

**Attestation trust** (`Chain`, `Attestation`, `Evidence`, `AttestationLaws`, `Mds`, `Aaguids`,
`MetadataTrust`). The chain walk, the decision over seven statement formats, the reading of metadata entries and
the policy compiled from them, composed into one statement: whatever is accepted under such a policy is vouched
for by an entry for its own model, as the BLOB holds that entry. What is accepted is stated exactly, in both
directions. Certificates, signatures and hashes are parameters; where a hash must not collide, the lemma says
so.

**Ceremonies** (`Ceremony`, `Authenticator`). What registration and authentication check, and the software
authenticator whose responses they are to accept: a built response is accepted if and only if stated conditions
hold, through CBOR, authenticator data, COSE and attestation together.

**Single use** (`Challenge`, `Server`, `ServerRuns`, `StoreKeys`, `DpopReplay`). Challenges and proof
identifiers live in a store with an atomic set-if-absent and an atomic take. `ServerRuns` interleaves calls of any
number of differently configured servers over one store; every call makes one store operation, so calls
interleave at those operations.

Small modules serve the others: `Wrappers`, `Bytes`, `Buffers`, `Utf8`, `Text`, `KeyStore`, `SessionSync`.

## Where the code and its comments part

- `packages/client/src/encoding.ts:30-33` says a second spelling of the same bytes is refused. Padding is; left-over
  bits are not (`Base64Url.EncodeUndoesDecode`, `Base64Url.SecondSpelling`).
- `packages/webauthn/src/challenge.ts:220-226` says a consumed challenge is gone whatever happens. A text longer than
  512 characters is refused before the store is asked, so a manager configured for more than 384 random bytes
  issues challenges that nobody can consume (`Challenge.ConsumeLeavesNothing`, `Challenge.ConsumableSizes`).
- `packages/webauthn/src/testing.ts:155-177` writes one-byte DER lengths, which suffice for fields of up to 124 bytes
  and not for longer ones (`DerSignature.PrintThenDecode`, `DerSignature.LargeFieldIsLost`).

## Where the code loses something

- `packages/webauthn/src/cbor.ts:169-175` drops a leading U+FEFF from text, so such texts do not survive a round trip
  (`CborEncoder.BomIsLost`).
- `packages/webauthn/src/attestation.ts:327-334` takes the first acceptable issuer and never turns back, so a chain with
  a path to an anchor can be refused (`Chain.WalkNeverTurnsBack`). It is accepted exactly when a path of first
  acceptable issuers gets there (`Chain.ReachingIsFirstPath`).

## Model

| member | source | states |
|---|---|---|
| Client.NinshoClient.constructor | packages/client/src/client.ts:91-125 | a new client has no token, key or pending work, and its two generations are zero |
| Client.NinshoClient.InvalidateIdentity | packages/client/src/client.ts:153-158 | invalidation advances the generation, frees the refresh slot and clears the token, and touches nothing else |
| Client.NinshoClient.OnPeerNotice | packages/client/src/client.ts:140-143 | a peer's notice invalidates the identity unless the client is disposed |
| Client.NinshoClient.DisposeClient | packages/client/src/client.ts:161-169 | disposal happens once: it also drops the key, its slot and the key generation |
| Client.NinshoClient.RequestKey | packages/client/src/client.ts:177-189 | a call for the key throws when disposed or while signing out, else yields the cached key, joins the running initialisation, or starts one in the slot |
| Client.NinshoClient.AcceptKey | packages/client/src/client.ts:184-187 | a stored key is cached only if the key generation of its initialisation is still current |
| Client.NinshoClient.ReleaseKey | packages/client/src/client.ts:190-194 | the key slot is freed only by the initialisation that is in it |
| Client.NinshoClient.SetAccessToken | packages/client/src/client.ts:211-220 | an accepted explicit token replaces the identity, invalidates it exactly when synchronised and null, and tells peers exactly when it changed |
| Client.NinshoClient.Fetch | packages/client/src/client.ts:265-269 | a fetch is refused when disposed or invalidated, else asks for the key |
| Client.NinshoClient.RefreshOnce | packages/client/src/client.ts:315-319 | a refresh is refused, joined, or started in the free slot |
| Client.NinshoClient.OnFetchResponse | packages/client/src/client.ts:273-277 | a fetch refreshes only on a 401 under its own generation with a token present |
| Client.NinshoClient.OnFetchRefreshed | packages/client/src/client.ts:278-280 | a fetch is repeated only after a successful refresh of its own generation |
| Client.NinshoClient.EndRefresh | packages/client/src/client.ts:358-360 | a refresh frees the slot only while its generation is current |
| Client.NinshoClient.OnRefreshResponse | packages/client/src/client.ts:337-343 | a response of a past generation is ignored; 401 and 403 clear the token, other failures leave it |
| Client.NinshoClient.OnRefreshBody | packages/client/src/client.ts:345-353 | a non-empty access token of a current refresh is installed, anything else clears the token |
| Client.NinshoClient.ContinueSignIn | packages/client/src/client.ts:385-391 | a sign-in advances the generation, frees the refresh slot and asks for the key |
| Client.NinshoClient.SignIn | packages/client/src/client.ts:379-384 | a sign-in called during a sign-out waits for it and changes nothing |
| Client.NinshoClient.ResumeSignIn | packages/client/src/client.ts:381-385 | a waiting sign-in goes on only if the sign-out settled well and the identity did not change meanwhile |
| Client.NinshoClient.OnSignInBody | packages/client/src/client.ts:393-401 | a sign-in establishes the identity only with a non-empty token under its own generation |
| Client.NinshoClient.SignOut | packages/client/src/client.ts:419-446 | a sign-out is refused, shared, or begins: the request's own call for the key comes before the slot is taken, and the initialisation to outlast is remembered |
| Client.NinshoClient.OnSignOutDrained | packages/client/src/client.ts:440-442 | once the remembered initialisation is over, the cached key and the key slot are dropped |
| Client.NinshoClient.ReleaseSignOut | packages/client/src/client.ts:447-451 | the sign-out slot is freed only by the sign-out that is in it |
| ClientLaws.TokenWriters | packages/client/src/client.ts:153-158 | the token is written by an explicit call or notice, or by a refresh or sign-in whose captured generation is current, in any reachable state |
| ClientLaws.BoundariesAdvance | packages/client/src/client.ts:153-158 | every accepted sign-out, disposal, notice or explicit token advances the generation by one |
| ClientLaws.NothingOutlivesItsGeneration | packages/client/src/client.ts:315-365 | over any run, once the generation has advanced nothing begun before installs or clears a token, touches the refresh slot, sends a request or tells a peer |
| ClientLaws.RefreshSlotIsExact | packages/client/src/client.ts:315-365 | over any run, the refresh slot holds a refresh if and only if that refresh is unfinished and of the current generation |
| ClientLaws.RefreshesNeverOverlap | packages/client/src/client.ts:315-319 | over any run, two refreshes of one generation, current or past, are never unfinished together |
| ClientLaws.RefreshRequestsHoldTheSlot | packages/client/src/client.ts:330-335 | over any run, a refresh request is sent only by the refresh that holds the slot |
| ClientLaws.RequestsComeFromProofs | packages/client/src/client.ts:304-305 | a request is sent only with a finished proof, under the generation it was made for |
| ClientLaws.SignersAgree | packages/client/src/client.ts:57-74 | with one client on the store, over any run, all requests between two completed sign-outs are signed by one key, whether or not the store is atomic |
| ClientLaws.SignOutLeavesNoKey | packages/client/src/client.ts:438-444 | a sign-out that clears the store leaves no key cached, none stored and no initialisation running, even if one was when it began |
| ClientLaws.StoreStaysEmpty | packages/client/src/client.ts:438-444 | after that the store stays empty until an initialisation begun later fills it |
| ClientLaws.SignOutSilences | packages/client/src/client.ts:419-452 | while a sign-out is in flight there is no token, only its own request is sent, and calls made meanwhile change no field and start no key |
| ClientLaws.InvalidationHolds | packages/client/src/client.ts:211-220 | an invalidated identity has no token and no refresh; only an established sign-in or an explicit non-null token lifts it |
| ClientLaws.AloneIsInvalidatedByDisposal | packages/client/src/client.ts:428 | without session sync an identity is invalidated by disposal alone |
| ClientLaws.DisposalIsFinal | packages/client/src/client.ts:146-169 | after disposal there is never a token, a cached key, a request or a notice again |
| ClientLaws.NoticesAreOwn | packages/client/src/client.ts:219 | a notice is published only for an own change: an explicit new token, an established sign-in, a successful sign-out; never for a peer's notice |
| ClientLaws.RunIsSafe | packages/client/src/client.ts:91-125 | every state of every run satisfies the invariant on slots, generations, keys and store |
| ClientEffects.TokenAfter | packages/client/src/client.ts:153-446 | exactly what each step leaves for a token: an accepted explicit one, one brought in time by a sign-in or a refresh, none after a sign-out, a disposal, a notice, a current 401 or 403 or a refresh body without one, and otherwise the one before |
| ClientEffects.InvalidatedAfter | packages/client/src/client.ts:153-428 | exactly when each step invalidates the identity, and when it lifts that |
| ClientEffects.GenerationAfter | packages/client/src/client.ts:153-446 | the generation advances by one exactly with an accepted explicit token, sign-out, disposal or notice, or a sign-in that sets out, called or resumed |
| ClientEffects.RefreshSlotAfter | packages/client/src/client.ts:315-360 | the refresh slot is freed exactly with the identity or with its refresh, and taken exactly by a refresh that is called for, or needed by a fetch refused with 401, while none is in flight |
| ClientEffects.KeyAfter | packages/client/src/client.ts:160-442 | a key is cached exactly when it arrives under the current key generation, and dropped exactly by a disposal or a sign-out that has outlasted the initialisations |
| ClientEffects.KeySlotAfter | packages/client/src/client.ts:177-194 | the key slot is taken exactly by a step that needs the key when there is neither a cached key nor an initialisation to join, and freed by that call, a disposal or a sign-out |
| ClientEffects.SignOutSlotAfter | packages/client/src/client.ts:419-451 | the sign-out slot is taken exactly by an accepted sign-out and freed exactly by its own release |
| ClientEffects.LogAfter | packages/client/src/client.ts:219-433 | exactly which steps send a request, and with which key, which tell peers, and which complete a sign-out |
| ClientEffects.CallLeaves | packages/client/src/client.ts:265-446 | what each call leaves running: refused, waiting for a sign-out, or waiting for the cached key, the initialisation in flight or its own, under the generation of the moment or the next |
| ClientEffects.ProofGoesOn | packages/client/src/client.ts:290-305 | with its key and then its proof an operation is sent if its generation is current, and fails otherwise |
| ClientEffects.FetchGoesThrough | packages/client/src/client.ts:271-283 | a fetch is over with its response, unless that is a 401 which a refresh, joined or begun, may cure |
| ClientEffects.ResponseGoesOn | packages/client/src/client.ts:337-397 | a successful response in time takes a refresh or a sign-in to its body, any other ends it |
| ClientEffects.BodyGoesOn | packages/client/src/client.ts:345-400 | a body settles a refresh, well exactly when it brings a token in time, and ends a sign-in |
| ClientEffects.WaitGoesOn | packages/client/src/client.ts:278-391 | a fetch whose refresh succeeded in time is sent once more, and a sign-in whose sign-out settled well, with the identity unchanged, is sent |
| ClientEffects.SignOutGoesOn | packages/client/src/client.ts:438-446 | with sync a sign-out settles once the initialisations are outlasted, otherwise once the store has been cleared or could not be |
| ClientScenarios.SignInEstablishes | packages/client/src/client.ts:393-401 | in any run, a sign-in whose body brings a token in time installs it, lifts an invalidation and tells peers; any other changes nothing |
| ClientScenarios.RefreshInstalls | packages/client/src/client.ts:345-353 | in any run, a refresh body in time installs its token and settles the refresh well, or clears the token; a late one does nothing |
| ClientScenarios.RefreshRefused | packages/client/src/client.ts:337-343 | in any run, a current refresh refused with 401 or 403 clears the token, and any other refusal keeps it |
| ClientScenarios.ExplicitTokenStands | packages/client/src/client.ts:211-220 | in any run, an explicit token that is accepted is exactly what is left, and peers are told exactly when it is another one |
| ClientScenarios.TokenWasBrought | packages/client/src/client.ts:211-401 | in any run, the token there is was brought by an accepted explicit call or a body in time, and no step since has touched it |
| ClientScenarios.SignInGetsThrough | packages/client/src/client.ts:378-401 | from any open client with its key, a sign-in answered with success and a token ends with that token, one request and one notice |
| ClientScenarios.FetchRecovers | packages/client/src/client.ts:265-365 | from any open client, a fetch refused with 401 gets the token refreshed and is sent a second time, under the same identity and key |
| ClientScenarios.SignOutGetsThrough | packages/client/src/client.ts:419-452 | from any open client with a token and its key, a successful sign-out ends with no token, no cached key and a free slot, and without sync no stored key |
| KeyStore.MemoryKeyStore.GetOrCreate | packages/client/src/storage.ts:187-190 | a key that is there wins over the candidate, in one step, as the client's runs assume |
| KeyStore.MemoryKeyStore.Save | packages/client/src/storage.ts:192-194 | saving replaces whatever is there, as the client's runs assume of stores without getOrCreate |
| SessionSync.Transport.RememberId | packages/client/src/session-sync.ts:42-48 | an identifier is remembered last, none twice, and past 128 the oldest goes |
| SessionSync.Transport.OnMessage | packages/client/src/session-sync.ts:24-34 | a message invalidates exactly when the channel is open and it is an unseen notice of this context; then it is remembered |
| SessionSync.Transport.Publish | packages/client/src/session-sync.ts:50-59 | a published notice carries this context, and its own identifier counts as seen even if the channel fails to post it |
| SessionSync.Transport.Close | packages/client/src/session-sync.ts:61-68 | closing forgets everything and ends the channel |
| SessionSync.CreateTransport | packages/client/src/session-sync.ts:16-23 | a transport is refused exactly for a blank context or one of more than 128 characters |
| SessionSync.RepeatsExactly | packages/client/src/session-sync.ts:42-48 | while new identifiers come in, a notice acted on is taken again if and only if at least 128 of them have |
| SessionSync.RepeatsAreIgnored | packages/client/src/session-sync.ts:31-32 | a notice acted on is not taken again before 128 further identifiers have been remembered |
| Base64Url.ToBase64Url | packages/client/src/encoding.ts:11-19 | chunk by chunk, the bytes are encoded as one unpadded base64url text |
| Base64Url.FromBase64Url | packages/client/src/encoding.ts:35-51 | a text is refused exactly when a character or its length is wrong, else its bytes are copied out |
| Base64Url.DecodeUndoesEncode | packages/client/src/encoding.ts:11-51 | every byte string is given back by decoding its encoding |
| Base64Url.EncodeUndoesDecode | packages/client/src/encoding.ts:30-46 | an accepted text is the encoding of its bytes if and only if the bits after them are zero |
| Base64Url.SecondSpelling | packages/client/src/encoding.ts:30-46 | so some bytes have a second accepted spelling, contrary to the comment there |
| CborReader.Reader.ReadUnsigned | packages/webauthn/src/cbor.ts:83-107 | a big-endian read advances the cursor by its width, or refuses without moving |
| CborReader.Reader.Slice | packages/webauthn/src/cbor.ts:109-114 | a slice advances the cursor by its length, or refuses without moving |
| CborReader.ReadArgumentAt | packages/webauthn/src/cbor.ts:123-140 | the argument and its width are those of the additional information |
| CborReader.DecodeValue | packages/webauthn/src/cbor.ts:177-265 | the imperative decoder yields exactly the specified value or error and advances by exactly what it used |
| CborReader.DecodeArray | packages/webauthn/src/cbor.ts:216-223 | the array loop yields the specified items |
| CborReader.DecodeMap | packages/webauthn/src/cbor.ts:225-243 | the map loop yields the specified entries, refusing bad and repeated keys |
| CborReader.DecodeCbor | packages/webauthn/src/cbor.ts:274-289 | the whole input must be one value |
| CborReader.DecodeCborPrefix | packages/webauthn/src/cbor.ts:291-298 | one value is read from the front, with the number of bytes it took |
| CborLaws.DecodeLocal | packages/webauthn/src/cbor.ts:177-265 | replacing everything after the bytes consumed changes neither the value nor their number |
| CborLaws.IntegersRead | packages/webauthn/src/cbor.ts:123-145 | an integer is read from each of its widths, needed or not, most significant byte first, as a number while it is exact and as a bigint beyond |
| CborLaws.InitialBytes | packages/webauthn/src/cbor.ts:123-265 | indefinite lengths, reserved forms, tags, undefined and every simple value but false, true and null are refused, each with its own error, whatever follows |
| CborLaws.PrefixFree | packages/webauthn/src/cbor.ts:274-284 | no accepted encoding is a proper prefix of another |
| CborLaws.DecodePrefixStops | packages/webauthn/src/cbor.ts:291-298 | whatever is appended to a whole value, decoding stops at its end |
| CborLaws.DecodeCost | packages/webauthn/src/cbor.ts:143-155 | the number of values built is at most the number of bytes consumed, and no read leaves the buffer |
| CborLaws.DecodeWellFormed | packages/webauthn/src/cbor.ts:48 | whatever is accepted nests at most sixteen deep, repeats no key, holds only valid text, and keeps big numbers apart from safe ones |
| CborEncoder.RoundTrip | packages/webauthn/src/testing.ts:49-97 | a printed value followed by any bytes decodes to itself and to exactly its own length if and only if its integers and counts fit 32 bits, no text begins with U+FEFF, and it nests at most sixteen deep |
| CborEncoder.EncodeInjective | packages/webauthn/src/testing.ts:76-97 | on such values printing is injective |
| CborEncoder.SurvivorIsRepresentable | packages/webauthn/src/testing.ts:49-97 | a value that survives printing and decoding satisfies that condition |
| Buffers.SetAt | packages/webauthn/src/testing.ts:64-74 | a chunk is copied into the buffer in place and nothing else changes |
| Buffers.ConcatChunks | packages/webauthn/src/testing.ts:64-74 | the fresh buffer holds the chunks in order and nothing else |
| CborEncoder.BomIsLost | packages/webauthn/src/cbor.ts:169-175 | a text that is a lone U+FEFF decodes to the empty text |
| Der.ReadLengthAt | packages/webauthn/src/der.ts:39-68 | the length loop yields the specified length or error |
| DerSignature.ReadIntegerAt | packages/webauthn/src/der.ts:74-111 | an INTEGER is stripped of its sign byte, refused when zero or too long, and padded to the field |
| DerSignature.DerToRawSignature | packages/webauthn/src/der.ts:119-139 | the imperative decoder yields exactly the specified signature or error |
| DerSignature.DecodesExactlyCanonical | packages/webauthn/src/der.ts:39-139 | a DER signature is decoded to r and s if and only if it is their canonical encoding, both are non-zero and the lengths fit |
| DerSignature.DecodingInjective | packages/webauthn/src/der.ts:119-139 | no two accepted encodings decode to one signature |
| DerSignature.RawToDerSignature | packages/webauthn/src/testing.ts:155-177 | the printer's buffers and indices produce the specified encoding |
| DerSignature.PrintThenDecode | packages/webauthn/src/testing.ts:155-177 | printing, then decoding, gives a signature back if and only if both halves are non-zero and the one-byte lengths suffice |
| DerSignature.DecodeThenPrint | packages/webauthn/src/testing.ts:155-177 | decoding, then printing, gives an accepted encoding back if and only if one-byte lengths suffice, as they do for fields of at most 124 bytes |
| DerSignature.LargeFieldIsLost | packages/webauthn/src/testing.ts:155-177 | at 125 bytes a signature exists that is lost |
| Der.DigitsDenote | packages/webauthn/src/x509-fixtures.ts:32-42 | the length printer's digits denote the low 32 bits of the length, without leading zeros |
| Der.LengthCanonical | packages/webauthn/src/asn1.ts:115-143 | an accepted length is written in the one way the printer writes it |
| Der.LengthRead | packages/webauthn/src/x509-fixtures.ts:32-42 | a printed length within the reader's bound is read back, wherever it lies |
| Asn1.ReadTagNumberAt | packages/webauthn/src/asn1.ts:88-109 | the loop over tag groups yields the specified number or error |
| Asn1.ReadTlvAt | packages/webauthn/src/asn1.ts:79-151 | the imperative reader yields exactly the specified node or error |
| Asn1.ChildrenOf | packages/webauthn/src/asn1.ts:154-170 | the loop collects exactly the specified children or error |
| Asn1.HeaderCanonical | packages/webauthn/src/asn1.ts:79-151 | a node is accepted under one header only: the shortest its tag, number and length have |
| Asn1.ReadUndoesPrint | packages/webauthn/src/asn1.ts:79-151 | an element is read back from its shortest print if and only if its content is under 2^24 bytes and its tag number under 2^21 |
| Asn1.ChildrenTile | packages/webauthn/src/asn1.ts:154-170 | the children of a node tile it: printed again side by side they are its content, byte for byte |
| Oid.EncodeOid | packages/webauthn/src/asn1.ts:180-215 | the loops produce the specified content bytes or error |
| Oid.EncodeInjective | packages/webauthn/src/asn1.ts:180-215 | comparing encoded bytes is comparing OIDs, for well-formed OIDs with components under 2^32 |
| Oid.ContentGrows | packages/webauthn/src/asn1.ts:180-215 | an OID begins with one byte for its first two numbers, and each further number adds its own bytes |
| Oid.ComponentDenotes | packages/webauthn/src/asn1.ts:180-215 | a number is written in base 128, most significant group first, marked on all bytes but the last, without a leading zero group |
| Oid.EncodeCollidesExactly | packages/webauthn/src/asn1.ts:180-215 | any two OIDs of at least two numbers encode alike if and only if they are equally long, their first pairs agree modulo 256 and their other numbers modulo 2^32 |
| Oid.OversizeCollides | packages/webauthn/src/asn1.ts:180-215 | so a number past 32 bits, and a first pair past one byte, are each taken for another: an instance of either |
| Certificates.FindExtensionIn | packages/webauthn/src/asn1.ts:236-290 | the imperative search yields exactly the specified extension value, absence or error |
| Certificates.FindsFirst | packages/webauthn/src/asn1.ts:236-290 | on any certificate of the built layout the search yields the first extension with the OID, or undefined |
| Certificates.FindsNothing | packages/webauthn/src/asn1.ts:249-253 | a certificate without the extensions field has no extensions, which is not an error |
| Asn1.TlvWhole | packages/webauthn/src/x509-fixtures.ts:56-60 | a low-tag element is read back whole, for contents under 2^24 bytes |
| Asn1.HighContextWhole | packages/webauthn/src/x509-fixtures.ts:76-90 | a high-tag element is read back whole, for contents under 2^24 bytes and numbers under 2^21 |
| Asn1.RunOfWholes | packages/webauthn/src/x509-fixtures.ts:56-60 | elements laid side by side are read as exactly those elements, each in its place |
| Base128.Encode | packages/webauthn/src/x509-fixtures.ts:76-90 | the loops over base-128 groups produce the specified bytes |
| Base128.EncodedSelfDelimiting | packages/webauthn/src/x509-fixtures.ts:76-90 | base-128 numbers end themselves: two that begin alike are equal |
| AndroidKey.IntegerContentRead | packages/webauthn/src/x509-fixtures.ts:106-137 | a built INTEGER is read back as its value if and only if it is below 2^31 |
| Certificates.ExtensionRead | packages/webauthn/src/x509-fixtures.ts:183-189 | a built extension gives back its OID's bytes and its value, critical or not |
| AndroidKey.ListRead | packages/webauthn/src/x509-fixtures.ts:202-214 | a built authorization list, wherever it lies, gives back purposes, all-applications mark and origin |
| AndroidKey.ParseUndoesBuild | packages/webauthn/src/x509-fixtures.ts:217-235 | a built key description is parsed to itself if and only if its content is under 2^24 bytes and its integers below 2^31 |
| AndroidKey.ReadSmallInteger | packages/webauthn/src/android-key.ts:94-107 | the digit loop yields the specified value, or the error for an empty, long or negative content |
| AndroidKey.ReadAuthorizationList | packages/webauthn/src/android-key.ts:129-179 | the loop over fields yields the specified list or error, the last field of a kind deciding |
| AndroidKey.ParsedIsSmall | packages/webauthn/src/android-key.ts:94-107 | no parsed description holds an integer of 2^31 or more |
| AndroidKey.AcceptedExactly | packages/webauthn/src/android-key.ts:237-272 | a description is accepted if and only if neither list is for all applications, and the hardware's list, or where it is silent and that is admitted the software's, has origin zero and the purpose of signing |
| AndroidKey.SoftwareModeIsLooser | packages/webauthn/src/android-key.ts:237-272 | reading the software list as well never rejects what the default accepts |
| AndroidKey.SoftwareWordIgnored | packages/webauthn/src/android-key.ts:253-271 | by default the software list's origin and purposes have no say |
| AuthData.ReadAttestedAt | packages/webauthn/src/authdata.ts:134-182 | the credential section is read field by field, its key's extent found by decoding |
| AuthData.ParseAuthenticatorData | packages/webauthn/src/authdata.ts:110-222 | the imperative parser yields exactly the specified fields or error |
| AuthData.ParsedIsBuilt | packages/webauthn/src/authdata.ts:110-222 | every accepted input is the concatenation of its parsed fields, which agree with the flags |
| AuthData.BuiltIsParsed | packages/webauthn/src/testing.ts:279-303 | every consistently flagged build is accepted and gives its fields back |
| AuthData.FlagsOfParsed | packages/webauthn/src/authdata.ts:110-222 | presence, verification and the sections there are stand in bits 0, 2, 6 and 7 of byte 32, and the backup state implies eligibility |
| AuthData.AcceptsExactlyBuilt | packages/webauthn/src/authdata.ts:110-222 | the parser accepts exactly the consistent builds, each as the fields it was built from |
| Tpm.Reader.Slice | packages/webauthn/src/tpm.ts:102-107 | a slice is read and the cursor advanced, or nothing moves |
| Tpm.Reader.Unsigned | packages/webauthn/src/tpm.ts:88-100 | a big-endian number of known width is read |
| Tpm.Reader.SizedBytes | packages/webauthn/src/tpm.ts:110-116 | a two-byte size and that many bytes are read, or refused as truncated or overlong |
| Tpm.ParseTpmPublic | packages/webauthn/src/tpm.ts:137-180 | the imperative parser yields exactly the specified key or error |
| Tpm.ParseTpmAttest | packages/webauthn/src/tpm.ts:195-221 | the imperative parser yields exactly the specified statement or error |
| Tpm.ParsesExactlyAreas | packages/webauthn/src/tpm.ts:137-180 | a public area is accepted if and only if it is the print of fields that fit, and then as their view |
| Tpm.ParsesExactlyAttests | packages/webauthn/src/tpm.ts:195-221 | a statement is accepted if and only if it carries the magic, the type and fields that fit, whatever follows |
| Tpm.PublicReadBack | packages/webauthn/src/testing.ts:208-226 | a built public area gives its coordinates back if and only if both are under 2^16 bytes |
| Tpm.CertInfoReadBack | packages/webauthn/src/testing.ts:229-253 | a built statement gives back the hash of its ceremony and the name of its area |
| Tpm.AcceptedNames | packages/webauthn/src/tpm.ts:243-265 | a name is accepted if and only if it is the area's name under SHA-256, SHA-384 or SHA-512 |
| Tpm.NameFixesArea | packages/webauthn/src/tpm.ts:243-265 | with collision-free digests a name is accepted for at most one area |
| Tpm.MatchesExactly | packages/webauthn/src/tpm.ts:276-305 | an area matches a credential's key if and only if it holds that modulus and exponent, or those coordinates on P-256 |
| Tpm.AreaFixesKey | packages/webauthn/src/tpm.ts:276-305 | one area matches at most one credential key |
| Cose.CountBits | packages/webauthn/src/cose.ts:137-144 | the scan yields the number of significant bits |
| Cose.BitLengthIsLog | packages/webauthn/src/cose.ts:129-144 | the bit length is at most k if and only if the number is below 2^k, however it is padded |
| Cose.AcceptedIsSound | packages/webauthn/src/cose.ts:243-300 | an accepted key is of an allowed algorithm and of that algorithm's kind, with exact coordinates, or with a modulus between 2^2047 and 2^8192 and an odd exponent above one and below 2^64 |
| Cose.ReadUndoesBuild | packages/webauthn/src/testing.ts:104-126 | a written key is parsed to itself if and only if it is sound, its byte strings are under 2^32 bytes and its algorithm is allowed |
| Chain.FindAnchor | packages/webauthn/src/attestation.ts:319-322 | the search over the anchors says whether one issued the certificate |
| Chain.FindAbove | packages/webauthn/src/attestation.ts:327-334 | the search over the chain yields the first acceptable issuer |
| Chain.ChainReachesAnchor | packages/webauthn/src/attestation.ts:278-343 | the loop yields exactly the specified verdict |
| Chain.ReachingIsSound | packages/webauthn/src/attestation.ts:278-343 | an accepted chain holds a path of at most six certificates, all within their validity, each naming the next as its issuer and signed by it, all above the leaf CAs, up to an anchor within its validity that is named by and has signed the last |
| Chain.ReachingIsMonotone | packages/webauthn/src/attestation.ts:278-343 | more anchors never turn an accepted chain away |
| Chain.ReachingIsFirstPath | packages/webauthn/src/attestation.ts:278-343 | for every chain and anchors, the walk succeeds if and only if some such path takes, at each certificate, the first in the chain that names and signatures, validity and the CA mark admit |
| Chain.FirstPathsAgree | packages/webauthn/src/attestation.ts:327-334 | that path is fixed by the chain: of two, to whatever anchors, one is the beginning of the other |
| Chain.ReachingIsExact | packages/webauthn/src/attestation.ts:278-343 | where each certificate has at most one acceptable issuer, every path is of that kind, and the walk succeeds if and only if there is one |
| Chain.OneAnchorSuffices | packages/webauthn/src/attestation.ts:319-323 | a chain reaches some of the anchors if and only if it reaches one of them taken alone |
| Chain.WalkNeverTurnsBack | packages/webauthn/src/attestation.ts:327-335 | a chain with a path of another kind can be refused: an instance |
| Attestation.SearchUsages | packages/webauthn/src/attestation.ts:493-512 | the loop over extended key usages finds the OID exactly when the run holds it |
| Evidence.X5cMeans | packages/webauthn/src/attestation.ts:346-367 | the chain read from a statement is the certificates of its x5c, one to eight byte strings, in order and the leaf first; there is none exactly when there is no x5c |
| Evidence.DersMean | packages/webauthn/src/attestation.ts:357-367 | a list of certificates is read one for one and in order, or refused |
| Evidence.NonceOfBuilt | packages/webauthn/src/attestation.ts:376-418 | the nonce found in a well-formed extension is the one it was made for, and no other |
| Evidence.UsageOfBuilt | packages/webauthn/src/attestation.ts:493-512 | a usage is found in a well-formed extension if and only if it is one of the OIDs listed |
| AttestationLaws.AppleCertified | packages/webauthn/src/attestation.ts:438-468 | an accepted apple statement carries the digest of authenticator data and client data hash as its nonce, and the credential's key, and a trust path leads to a root for the model |
| AttestationLaws.TpmCertified | packages/webauthn/src/attestation.ts:783-877 | an accepted tpm statement hashes the ceremony, names the public area, matches it with the credential key and is signed by a leaf that is no CA, has a blank subject and the AIK usage, and reaches a root for the model |
| AttestationLaws.AndroidKeyCertified | packages/webauthn/src/attestation.ts:701-771 | an accepted android-key statement signs the ceremony, holds a description in order and made for this ceremony, the credential's key, and reaches a root for the model |
| AttestationLaws.PackedCertified | packages/webauthn/src/attestation.ts:1266-1316 | an accepted certified packed statement signs the ceremony under a leaf that is no CA and names no other model, and reaches a root for its own |
| AttestationLaws.U2fCertified | packages/webauthn/src/attestation.ts:601-660 | an accepted fido-u2f statement has one P-256 certificate, whose key signs relying party, client data, credential and point, and which reaches a root, under no allowlist |
| AttestationLaws.SafetyNetCertified | packages/webauthn/src/attestation.ts:1017-1114 | an accepted SafetyNet response is signed by a leaf for the service's host, carries the ceremony's nonce, upholds the verdicts and reaches a root, under no allowlist |
| AttestationLaws.UncertifiedVouchesForNothing | packages/webauthn/src/attestation.ts:908-926 | only none and packed self-attestation come without a certificate, and then no AAGUID is vouched for and no allowlist was set |
| AttestationLaws.BasicIsCertified | packages/webauthn/src/attestation.ts:886-1317 | a certified outcome of any format comes of a presented chain that reaches a root for the model; the AAGUID counts as verified exactly in the four formats that convey one |
| AttestationLaws.CertifiedExactly | packages/webauthn/src/attestation.ts:886-1317 | an attestation of any format is accepted as certified, and then as of that format, model and leaf, if and only if its format is asked for, the policy allows its model or, in the two formats that convey none, has no allowlist, its x5c presents a chain that a trust path leads from to a root, and it shows what its format asks: the signed or hashed bytes, equal keys, the named area, the leaf's marks |
| AttestationLaws.UncertifiedExactly | packages/webauthn/src/attestation.ts:886-1265 | an attestation is accepted without certificates if and only if no allowlist is set, its format is asked for, and it is none with an empty statement, or packed, without x5c, admitted as self-attestation and signed over the ceremony with the credential's own key and algorithm |
| AttestationLaws.AllowlistIsEnforced | packages/webauthn/src/attestation.ts:886-1317 | under an allowlist whatever is accepted is certified, and its AAGUID is verified and listed |
| AttestationLaws.StatementFixesCeremony | packages/webauthn/src/attestation.ts:438-454 | with hashes that do not collide, an apple, tpm or SafetyNet statement is accepted for one ceremony only, an android-key one for one client data hash |
| AttestationLaws.SignatureFixesCeremony | packages/webauthn/src/attestation.ts:601-660 | where no signature serves two messages, a certified packed or android-key statement is accepted for one ceremony only, a fido-u2f one for one relying party, client data, credential and key |
| AttestationLaws.TpmStatementFixesKey | packages/webauthn/src/attestation.ts:806-819 | a tpm statement is accepted beside one credential key only |
| Mds.NewestFirstSorts | packages/webauthn/src/mds.ts:186-188 | the status reports are all kept, newest first |
| Mds.ReadStatusReports | packages/webauthn/src/mds.ts:170-189 | the loop keeps exactly the reports whose status is text, and sorts them |
| Mds.ReportsRead | packages/webauthn/src/mds.ts:170-184 | a report is read if and only if the BLOB holds it with text for its status |
| Mds.UndatedIsNeverCurrent | packages/webauthn/src/mds.ts:186-188 | where no text collates before the empty one, an undated report is the current one only when no date in the entry collates after it |
| Mds.ReadRootCertificates | packages/webauthn/src/mds.ts:201-213 | the loop over an entry's roots yields the specified certificates, or the error for one that is not text or not base64 |
| Mds.RootsRead | packages/webauthn/src/mds.ts:201-213 | the roots are read if and only if all are canonical base64 text, and then in the order listed |
| Mds.ReadBlobEntries | packages/webauthn/src/mds.ts:335-339 | the loop over a BLOB's entries yields the specified entries, or the first error among their roots |
| Mds.EntriesRead | packages/webauthn/src/mds.ts:335-339 | an entry is among those read if and only if some entry of the BLOB is read into it |
| Mds.DisqualifiedAsRead | packages/webauthn/src/mds.ts:170-189 | an entry that was read has a disqualifying status if and only if some report of the entry in the BLOB has it, dated or not and in whatever order |
| Mds.CurrentStatus | packages/webauthn/src/mds.ts:186-188 | the status in front is that of the first among the newest reports the BLOB holds |
| Aaguids.ReadAsSpelled | packages/webauthn/src/mds.ts:164-168 | a text is read as a model if and only if, hyphens aside, it is two hexadecimal digits of either case for each of sixteen bytes, high digit first |
| Aaguids.ReadAsNothing | packages/webauthn/src/mds.ts:164-168 | whatever spells no sixteen bytes, or is no text, is read as no model |
| Aaguids.HexReadAsItself | packages/webauthn/src/mds.ts:164-168 | the lowercase hex of sixteen bytes is read as itself |
| Aaguids.HyphensAndCaseAside | packages/webauthn/src/mds.ts:164-168 | a hyphen anywhere, and the case of a letter, make no difference |
| Aaguids.NormalisedNamesOneModel | packages/webauthn/src/mds.ts:164-168 | whatever case and hyphens an AAGUID is written with, what it is read as is the hex of sixteen bytes, and of no others |
| MetadataTrust.QualifiesAsRead | packages/webauthn/src/mds.ts:193-225 | an entry of the BLOB, once read, qualifies for a model exactly when it spells that model's AAGUID, lists a root, has an accepted status for its current report and a disqualifying one for none; and it is read with just the roots it lists |
| MetadataTrust.EntriesReadable | packages/webauthn/src/mds.ts:193-225 | a BLOB's entries are read if and only if all their roots are text in canonical base64 |
| MetadataTrust.StrictPolicy | packages/webauthn/src/mds.ts:405-419 | a compiled policy never admits self-attestation or a key that only the operating system vouches for |
| Mds.ToAttestationPolicy | packages/webauthn/src/mds.ts:372-419 | the loops with their seen set yield exactly the specified policy |
| Mds.PolicyPairs | packages/webauthn/src/mds.ts:384-403 | the policy allows exactly the models some qualifying entry vouches for, and pins each to exactly the roots such entries list for it |
| Mds.PolicyUnion | packages/webauthn/src/mds.ts:405-410 | the general anchors are the union of the pinned ones, each once |
| MetadataTrust.AcceptedUnderMetadata | packages/webauthn/src/mds.ts:372-419 | under any policy compiled from a BLOB, an accepted attestation of any format has its AAGUID verified, and its chain ends at a root listed for that same AAGUID by an entry with no disqualifying status in its history |
| MetadataTrust.AcceptedUnderBlob | packages/webauthn/src/mds.ts:164-225 | from the BLOB to the decision: under a policy compiled from a BLOB's own entries, whatever is accepted rests on an entry that, as the BLOB holds it, spells the model's AAGUID, lists the root that the trust path ends at, has an accepted status for its current report and a disqualifying one for none |
| MetadataTrust.AcceptedFromBlob | packages/webauthn/src/mds.ts:164-419 | the whole decision from the BLOB on: an attestation of any format is accepted if and only if its format is asked for and names a model, some entry of the BLOB speaks for that model, every root such entries list is a certificate, and the statement is in order with a chain from which a trust path leads to one |
| MetadataTrust.RevocationIsPerEntry | packages/webauthn/src/mds.ts:389-393 | histories are read entry by entry: a model revoked in one entry is still vouched for by another |
| Aaguids.HexInjective | packages/webauthn/src/attestation.ts:205 | the hex spelling of an AAGUID tells it from every other |
| MetadataTrust.AcceptedExactly | packages/webauthn/src/mds.ts:372-419 | under a policy compiled from a BLOB an attestation of any format is accepted if and only if its format is asked for and names a model, some qualifying entry is for that model, every root listed for it can be read, and the statement is in order with a chain that reaches one |
| MetadataTrust.PackedUnderMetadata | packages/webauthn/src/mds.ts:372-419 | under such a policy, a packed statement that is in order is accepted if and only if some qualifying entry names its model, every root listed for the model can be read, and its chain reaches one of them |
| Authenticator.ObjectReadBack | packages/webauthn/src/testing.ts:746-752 | a built attestation object is read back as its format, statement and authenticator data |
| Authenticator.RegistrationOutcome | packages/webauthn/src/testing.ts:432-755 | a built registration is accepted if and only if the client data and flags meet the expectations, the key's algorithm is allowed and importable, and the attestation verifies; it then registers exactly the device's credential and counter |
| Authenticator.PasskeyOutcome | packages/webauthn/src/testing.ts:432-755 | without attestation, where the policy accepts none, nothing but the ceremony decides |
| Authenticator.VirtualAuthenticator.Authenticate | packages/webauthn/src/testing.ts:758-790 | an assertion takes the given counter or the next, and unless the signature is overridden signs the authenticator data followed by the client data's hash |
| Authenticator.AuthenticationOutcome | packages/webauthn/src/testing.ts:758-790 | a built assertion is accepted if and only if the client data and flags meet the expectations, the key is allowed and importable, the signature verifies over exactly what was built, the counter is in order, and any user handle names the credential's user |
| Ceremony.RegistrationIsShown | packages/webauthn/src/ceremony.ts:349-438 | a registration is accepted if and only if it has the create type, the expected challenge and origin, no foreign frame unless allowed, this relying party's hash, presence, verification where required, a sound importable key of an allowed algorithm, and an attestation that verifies; the result is just what was shown |
| Ceremony.AuthenticationIsShown | packages/webauthn/src/ceremony.ts:496-593 | an assertion is accepted if and only if it shows the same under the get type, is for this credential and its owner, carries no new credential, is signed by the stored key, and its counter has risen where regressions are rejected; the result is just what was shown |
| Ceremony.CountersOnlyRise | packages/webauthn/src/ceremony.ts:570-581 | when regressions are rejected no counter is accepted twice or after a higher one, except zeros |
| Challenge.ChallengeManager.IssueChallenge | packages/webauthn/src/challenge.ts:186-218 | a challenge is recorded with its context under its key, unless the key is taken |
| Challenge.ChallengeManager.ConsumeChallenge | packages/webauthn/src/challenge.ts:227-266 | a challenge is taken out before any check, and accepted if its record is whole, in time and of this type |
| Challenge.CreateManager | packages/webauthn/src/challenge.ts:136-158 | options are refused exactly when the lifetime or the number of random bytes is out of range |
| Challenge.StoreKeyInjective | packages/webauthn/src/challenge.ts:173-175 | a store key belongs to one ceremony type and one challenge |
| Challenge.ConsumeLeavesNothing | packages/webauthn/src/challenge.ts:220-238 | a consumed challenge is gone whatever the outcome if and only if it was not live or its text has between 1 and 512 characters |
| Challenge.IssuedIsConsumable | packages/webauthn/src/challenge.ts:227-266 | an issued challenge can be consumed in its time if and only if its text has between 1 and 512 characters |
| Challenge.ConsumableSizes | packages/webauthn/src/challenge.ts:148-152 | a manager configured for up to 384 random bytes issues challenges that can be consumed in their time; one configured for more issues them too, and refuses each at any time and from any store |
| Challenge.TypesAreSeparate | packages/webauthn/src/challenge.ts:167-175 | challenges of one ceremony type are not found, and not burnt, by the other |
| Server.StartExactly | packages/webauthn/src/server.ts:140-192 | a start call succeeds unless its key is taken, and then adds one record: of its kind and user, for the timeout in whole seconds, with the call's own requirement, else the server's, else preferred |
| Server.BurnExactly | packages/webauthn/src/server.ts:194-204 | burning yields a record if and only if it is the live one, of this kind and in time, of the challenge in the client data, and takes it out; only a text of no or over 512 characters leaves the store alone |
| Server.RegistrationExactly | packages/webauthn/src/server.ts:213-244 | a registration finishes, with a given result, if and only if its challenge is live, the user is the recorded and expected one, and the response shows every check of the ceremony under the recorded requirement and the server's settings |
| Server.AuthenticationExactly | packages/webauthn/src/server.ts:254-301 | an authentication likewise, its user being the credential's, else the challenge's, else the handle's, where the first two do not differ |
| Server.WebAuthnServer.StartCeremony | packages/webauthn/src/server.ts:140-192 | a start call issues one challenge that records the user and the effective user verification |
| Server.WebAuthnServer.BurnChallenge | packages/webauthn/src/server.ts:201-204 | the challenge is extracted and consumed before anything else |
| Server.WebAuthnServer.Register | packages/webauthn/src/server.ts:213-244 | a registration is judged only after its challenge is burnt, by the recorded user and requirement |
| Server.WebAuthnServer.Authenticate | packages/webauthn/src/server.ts:254-301 | an authentication likewise, and its user is the credential's, the challenge's or the handle's |
| Server.RegistrationKeepsPolicy | packages/webauthn/src/server.ts:213-244 | a finished registration is the challenge's user's, and verified where the challenge required it |
| Server.AuthenticationKeepsPolicy | packages/webauthn/src/server.ts:254-301 | a finished authentication is the challenge's user's where it has one, and verified where the challenge required it |
| ServerRuns.FinishedAsStarted | packages/webauthn/src/server.ts:140-301 | over any run of any servers on one store, whatever finishes goes back to a start call under its key, for that user if that call named one, with the flag set where that call demanded it, itself or through its server's setting, and nothing else happened to its challenge in between |
| ServerRuns.RecordTraced | packages/webauthn/src/challenge.ts:186-266 | over any run, whatever lies in the store was put there by one start call, as that call asked, and has lain untouched since |
| ServerRuns.RegistrationTraced | packages/webauthn/src/server.ts:140-244 | over any run, a registration that finishes goes back to a start call for a registration, under the key of the challenge its response carries, within its timeout in whole seconds, for the user returned; the user was verified if that call demanded it |
| ServerRuns.AuthenticationTraced | packages/webauthn/src/server.ts:160-301 | an authentication likewise, for the user that the start call named, if it named one |
| ServerRuns.EachStartFinishesOnce | packages/webauthn/src/server.ts:201-301 | over any run, between two finishes under one key lies a start of the second's own |
| ServerRuns.ChallengesAreConserved | packages/webauthn/src/challenge.ts:186-266 | over any run, for each type and challenge, issued = live + consumed + expired |
| ServerRuns.FailedFinishLeavesNothing | packages/webauthn/src/server.ts:194-204 | a finish call, however it ends, leaves no live record under the key it asked for |
| DpopReplay.DpopReplayGuard.Claim | packages/server/src/dpop/replay.ts:47-67 | a claim succeeds exactly when the store holds no entry under its key, which it then records; an unreachable store fails closed or open as configured |
| DpopReplay.SecondSuccessIsLate | packages/server/src/dpop/replay.ts:35-53 | in either mode, over any run, the store lets a key through a second time only after the retention |
| DpopReplay.ReuseNeedsOutage | packages/server/src/dpop/replay.ts:47-67 | over any run, two successes of one proof while it is acceptable happen only in fail-open mode, and only where one of the two claims found the store unreachable |
| DpopReplay.NoProofIsUsedTwice | packages/server/src/ninsho.ts:108-126 | in fail-closed mode, over any run, no proof is claimed with success twice while it is acceptable, even if each claim is made up to a second after the age check |
| DpopReplay.ShorterRetentionForgets | packages/server/src/ninsho.ts:114-121 | the retention is the least that will do: under any shorter one every proof has a fail-closed run in which it succeeds at both ends of its window |
| DpopReplay.OpenModeRepeats | packages/server/src/dpop/replay.ts:55-60 | in fail-open mode an unreachable store lets one proof through again and again |
| DpopReplay.ProofKeysDiffer | packages/server/src/keys.ts:154 | two proofs share a store key only if thumbprint and identifier agree, when thumbprints hold no colon |
| StoreKeys.KeysNeverCollide | packages/server/src/keys.ts:19-206 | two records of any kinds share a store key only if they are one record, when thumbprints, token purposes and token hashes hold no colon |
| StoreKeys.UncleanHasTwin | packages/server/src/keys.ts:154-194 | every record with such a colon shares its key with some other record; the callers send none, since `packages/server/src/tokens/one-time.ts:376-388` refuses a purpose with a colon, and thumbprints and token hashes are digests |
| StoreKeys.SharedExactly | packages/server/src/keys.ts:154-194 | of all records there could be, exactly these share their key with another: proofs and single-use tokens with a colon in either part, and every token generation, whose twin is a token with a colon in its hash |
| StoreKeys.ColonsCollide | packages/server/src/keys.ts:154-194 | three instances of such a shared key |

## Left out

- Session rotation, the rate limiter, single-use tokens, PASETO, DPoP proof verification, HTTP middleware, framework
  adapters and store implementations of `packages/server`: they are not part of this model.
- Real cryptography, X.509 parsing, WebCrypto and IndexedDB: parameters, or an atomic store contract.
- JSON and the UTF-8 library: client data, refresh bodies, SafetyNet responses and stored contexts arrive as records;
  CBOR text is kept as validated bytes.
- The SafetyNet envelope and its verdicts (`packages/webauthn/src/safetynet.ts`) and the signature on the metadata
  BLOB (`packages/webauthn/src/mds.ts:232-328`): abstract.
- URL resolution in the client: a call's path resolves or throws, as a parameter; the configured refresh path is
  taken to resolve.
- DPoP's acceptance window is taken from the comment at `packages/server/src/ninsho.ts:114-119`; the code that applies
  it is not part of this model. The guard on `createSession` is one condition and is left out.
- JavaScript numbers are integers here; the places where a width matters (32-bit shifts, lengths, safe integers) are
  written out, and rounding beyond 2^53 is not modelled.
- `ServerRuns` and `ClientRuns` are about safety: that a call eventually finishes is not claimed.
- Secrecy, timing and the quality of randomness.
- AttestationLaws.StatementFixesCeremony: says nothing of `packed` and `fido-u2f` statements, whose tie to a ceremony is
  a signature; `AttestationLaws.SignatureFixesCeremony` does, under an assumption on signatures.
- Authenticator.RegistrationOutcome: takes the statement as a parameter, because each format's builder only fills in
  fields that `AttestationLaws` speaks of; it builds no extensions, and its device's key is one that can be written.
- Client.NinshoClient.constructor: leaves out the base URL, the allowed origins and the remaining options, because a
  path that resolves or throws is a parameter of each call; the refusal of a context is `SessionSync.CreateTransport`.
- Server.WebAuthnServer.StartCeremony: returns the issued challenge and leaves out the options object around it, which
  copies the configuration.
- DpopReplay.NoProofIsUsedTwice: assumes one clock that does not run backwards, because a store that has dropped an
  entry at a later reading cannot be asked to remember it at an earlier one.
- Server.WebAuthnServer.constructor: assumes a valid lifetime, because the refusal of others is stated of
  `Challenge.CreateManager`.
- Start and finish calls read the clock where the code does, but the readings are parameters and need not agree.
