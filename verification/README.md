# A model of the signing gateway

The repository is a gateway that signs for EVM and Cosmos chains with keys kept by a Vault plugin. This project models
its core in Dafny and proves what it promises, for all inputs, all runs and all interleavings.

- **Key protocol** (`Text`, `KeyPath`, `Chains`, `Bytes`, `Plugin`, `Locking`, `Serial`, `Runs`, `PluginRuns`): creates,
  chain updates and deletions as steps over the store and the table of per-name locks. `Locking`, `Serial` and `Runs`
  are about any handlers; `PluginRuns` applies them to the plugin's.
- **Gateway** (`Gateway`, `GatewayRuns`, `Signing`, `Caches`, `KeyGateway`, `Counterexamples`): signing requests with
  the allow-list cache and the public-key cache as steps of a machine on top of the plugin's, with late cache writes,
  invalidations and other readers of the public key at any moment.
- **Amino JSON** (`Json`, `Scanner`, `Amino`): tokens and trees, the scanner for repeated names, decoding and printing.
- **Limiter table** (`Limiter`, `Principal`), **listing** (`Pages`, `WorkerPool`, `Listing`), **OpenAPI document**
  (`Tree`, `Refs`, `Mappings`, `SchemaUnion`, `OpenApi`, `Validity`, `Tags`, `Postprocess`, `Outcome`) and
  **token renewal** (`Renewal`).

Functions that specify an operation are themselves pinned down by what their results mean: by text and characters, by
the store, or field by field.

Code that updates state is a class or a method with loops, proved against a function; the theorems are about that
function or about the step machine built from it. Go's map iteration is a loop that takes any remaining key.

What comes from outside is a parameter: key generation, signing, recovery and point decompression (the record `Crypto`),
the time, whether storage loads and stores, what a read of the plugin brings, the number format of the JSON library
(`Numbers`, printed so that it reads back), and the cursor's base64 and JSON coding (`Codec`, with a left inverse).

Where the theorem one would like is false, there is a lemma with a failing case and one with the exact condition:

- a deletion while an update is under way: the run `PluginRuns.DeleteUndoneByUpdate`, and `Runs.InterposedDelete`.
- allows after a deletion: the run `Counterexamples.StaleAllowFailsToSign`. They stay right as long as deletions meet no
  list (`KeyGateway.AuthorizeLinearizable`); any that meets one leads on to a wrong one
  (`Counterexamples.DeletionMeetsList`).
- public keys after a deletion: the run `Counterexamples.RecreatedKeyMismatch`. They stay right as long as deletions meet
  no key (`KeyGateway.CosmosKeySigned`); any that meets one leads on to a wrong one (`Counterexamples.KeyOutlived`).
- the bound of the limiter table: the run `Limiter.EmptyKeyStays`, and `Limiter.EmptyKeyOverflows` for when.
- references to keys already under the new prefix: the document of `Mappings.RenamedOnto`, and
  `Mappings.ResolutionUnderNewPrefix` for when.
- a second pass over a document: `SchemaUnion.NestedUnionChangesAgain`, and `OpenApi.NormalizeSpecIdempotent` for when.
- a renewal whose lookup fails: `Renewal.UnseenShorterGrant`, and `Renewal.TickAfterUnseenGrant` for when.
- a scheme table with both spellings: `Outcome.RequirementsResolve` says when a name comes to mean another scheme.
- the interval of a negative TTL: `Renewal.NegativeTtlWraps`, and `Renewal.IntervalExact` for when.

Where code and comments disagree the model follows the code:

- The comment on `parseListLimit` says that a negative limit is an error; the code answers with the default.
- The comment on `renewalInterval` says that both forms of a decoded TTL are handled; a `json.Number` is not, and gives
  the 30 s floor.
- The comment on `ValidateListPrefix` speaks of prefixes of one or two segments; the code accepts three.
- The eviction's test for "nothing found" is an empty key, so an entry under the empty key is never evicted.

`dafny verify dfyconfig.toml` checks the whole project.

## Model

| member | source | states |
|---|---|---|
| `Runs.SerialInLockOrder` | internal/plugin/path_keys.go:103-160 | In every interleaving of any number of creates and updates split into lock, load, store and unlock steps, without Delete, the store and every response are those of running the calls one at a time in lock order, once no call is half done |
| `Runs.SerialInEffectOrder` | internal/plugin/path_keys_update.go:39-68 | With every Delete clean, the store and every response are those of the calls and deletions run one at a time in the order they took effect. Clean: it removes no entry that a call has loaded and is about to store back, unless that call would store and answer the same without it |
| `Runs.InterposedDelete` | internal/plugin/path_keys.go:178-187 | That condition is exact: in any run of clean deletions, deleting a key between a call's load and its store is never the call followed by the deletion, and is the deletion followed by the call exactly when it is clean |
| `Runs.LockInvAt` | internal/plugin/path_keys_update.go:114-117 | In every reachable state a name has at most one mutex, no two names share one, and a thread inside the critical section owns its name's mutex |
| `Locking.MutualExclusion` | internal/plugin/path_keys_update.go:114-117 | Two calls are inside the critical section of one name at once only if they are the same call |
| `Runs.GrowsBetweenDeletes` | internal/plugin/path_keys.go:103-160 | For any lawful handlers, an entry stays and only grows between deletions of its name, whatever else runs |
| `Runs.BornOnce` | internal/plugin/path_keys.go:103-160 | For any handlers, two store steps of a run by calls that both found no entry under the name have a deletion of that name between them |
| `PluginRuns.StoreStaysSound` | internal/plugin/path_keys.go:94-161 | In every reachable state, deletions included, each stored list is canonical or (legacy) empty, under a valid three-segment name, and the stored public key is that of the stored private key |
| `PluginRuns.KeyKeptBetweenDeletes` | internal/plugin/path_keys_update.go:43-68 | Between deletions of a key its private key, public key, address, source and creation time never change and its list never shrinks |
| `PluginRuns.NoUpdateLost` | internal/plugin/path_keys_update.go:39-68 | The chains reported to any caller of an update, which include the ones asked for, are in the store in every later state, as long as that key is not deleted after the answer; deletions before it do no harm |
| `PluginRuns.KeyBornOnce` | internal/plugin/path_keys.go:103-160 | Two steps of a run that store a newly generated key under one path have a deletion of that path between them |
| `PluginRuns.MadeIsGenerated` | internal/plugin/path_keys.go:103-160 | Such a step belongs to a create and leaves exactly the newly generated key with the asked chains in the store |
| `PluginRuns.DeleteUndoneByUpdate` | internal/plugin/path_keys_update.go:39-68 | An explicit run from a one-key store: a deletion between the load and the store of an update is undone, the key is back with its old material, the update reports success, and neither serial order gives that |
| `PluginRuns.ExecAgrees` | internal/plugin/path_keys.go:94-161 | A call run alone through the step protocol is the handler run alone |
| `Plugin.ExecKeeps` | internal/plugin/path_keys.go:94-161 | One call keeps a sound store sound, keeps every key with its material and chains, and touches no other name |
| `Plugin.CreateOutcome` | internal/plugin/path_keys.go:94-161 | A create that answers with key information reports the stored entry field by field with exactly the asked list: the entry that was there with that list, or the one of the generated private key; any other answer leaves the store as it was |
| `Plugin.CreateExact` | internal/plugin/path_keys.go:94-161 | When a create gives which answer. A mismatch: exactly when name and chains are valid, storage loads and the stored list is non-empty with other elements; information: exactly when there is no such conflict and what has to be generated and stored is |
| `Plugin.CreateIdempotent` | internal/plugin/path_keys.go:125-142 | A create that answered with information, repeated in any environment that loads, gives the same answer and the same store |
| `Plugin.UpdateOutcome` | internal/plugin/path_keys_update.go:16-69 | An update that reports success has stored the union of the old and the asked chains and reports the stored list; any other answer leaves the store as it was |
| `Plugin.UpdateExact` | internal/plugin/path_keys_update.go:16-69 | When an update gives which answer: success exactly when the key is there and nothing is added or the store succeeds, not found exactly when there is no key |
| `Plugin.UpdateIdempotent` | internal/plugin/path_keys_update.go:43-68 | An update that reported success, repeated likewise, reports the same and leaves the store as it is |
| `Plugin.CreateReportsPersisted` | internal/gateway/gateway.go:737-773 | The list that the gateway's create handler reports is exactly the list persisted, through the comma join and split |
| `Plugin.Backend.LoadKey` | internal/plugin/path_keys.go:211-224 | Gives the stored entry or none, and fails exactly when storage does |
| `Plugin.Backend.StoreKey` | internal/plugin/path_keys.go:226-232 | Replaces the entry of that name alone, or nothing when storage fails |
| `Plugin.Backend.HandleCreateKey` | internal/plugin/path_keys.go:94-161 | The handler's response and new store are those of the specification that the run theorems are about, every error branch included |
| `Plugin.Backend.HandleUpdateChains` | internal/plugin/path_keys_update.go:16-69 | The same for the chain update |
| `Plugin.Backend.HandleDeleteKey` | internal/plugin/path_keys.go:178-187 | Removes that name alone; an empty name is refused and a failing storage reported, and both change nothing |
| `Plugin.Backend.HandleSign` | internal/plugin/path_sign.go:44-120 | Signs as its specification says and changes nothing |
| `Plugin.SignOnlyWhenListed` | internal/plugin/path_sign.go:70-119 | A signature leaves the plugin only for a stored key whose non-empty list names the chain; its hex halves decode to that key's signature of the given digest; an empty legacy list never signs |
| `Plugin.SignExact` | internal/plugin/path_sign.go:44-75 | When a sign request is refused for its name, its input, a storage failure or a missing key |
| `Plugin.SignReadyExact` | internal/plugin/path_sign.go:77-119 | When, past that, it is refused for want of a chain or of authorisation, and when it is signed |
| `Chains.ParseChains` | pkg/types/types.go:29-49 | The loop with its seen map and final sort computes the canonical list of the normalised members, or fails on an empty input or an unknown member |
| `Chains.ParseExact` | pkg/types/types.go:29-49 | Character by character: exactly the non-empty lists of spellings of `evm` and `cosmos` (each letter small or capital, blanks on either side) are accepted, and the result is the sorted list of the names that are spelled |
| `Chains.NormaliseExact` | pkg/types/types.go:32 | Normalising leads to a name from its spellings and from nothing else |
| `Chains.ChainsContain` | pkg/types/types.go:52-59 | The search loop decides membership |
| `Chains.SameChainSet` | internal/plugin/path_keys.go:270-290 | The counting loops decide multiset equality |
| `Chains.CanonicalSameSet` | internal/plugin/path_keys.go:270-290 | On canonical lists multiset equality, set equality and equality are one |
| `Chains.ParseIdempotent` | pkg/types/types.go:29-49 | A parsed list is canonical and non-empty, and parsing it again gives it back |
| `Chains.ParseOrderInsensitive` | pkg/types/types.go:29-49 | Order, repetition, case and surrounding blanks do not matter |
| `Chains.PermutationParsesAlike` | pkg/types/types.go:29-49 | A permuted input parses alike |
| `Chains.ParseConcat` | pkg/types/types.go:29-49 | Parsing a concatenation is the canonical union of the parts and fails exactly when a part does |
| `Chains.MergeIsUnion` | internal/plugin/path_keys_update.go:43-68 | Appending the added chains to the stored ones and parsing again is their canonical union, and it is unchanged exactly when the list is |
| `Chains.WireRoundTrip` | internal/vault/client.go:244-255 | A canonical list survives the client's comma join and the plugin's split and parse |
| `KeyPath.ValidateExact` | internal/keypath/keypath.go:17-27 | The validator accepts exactly three segments of lower-case letters, digits, underscore and dash, joined by slashes |
| `KeyPath.SegmentExact` | internal/keypath/keypath.go:13 | The characters of a segment, listed |
| `KeyPath.ValidateReason` | internal/keypath/keypath.go:17-51 | Other than two slashes is a wrong shape; otherwise the first segment that is bad decides between the empty and the bad one |
| `KeyPath.ListPrefixExact` | internal/keypath/keypath.go:29-39 | A list prefix is accepted exactly if it is empty or one to three segments, with or without a trailing slash |
| `KeyPath.SegmentsValid` | internal/keypath/keypath.go:41-51 | The early-exit scan accepts exactly the lists all of whose members are segments |
| `KeyGateway.AuthorizeLinearizable` | internal/gateway/chains_cache.go:36-109 | In every interleaving of sign checks, slow fetches, late cache writes, updates, invalidations and deletions, each deny and not-found equals a direct look at the stored list at some moment inside that call, and so does each allow if, until the request consulted the cache, every deletion of the path met no list that names a chain, cached or in flight |
| `GatewayRuns.VerdictWithin` | internal/gateway/chains_cache.go:73-109 | The same for any lawful plugin |
| `KeyGateway.AllowWasListed` | internal/gateway/chains_cache.go:36-109 | With deletions at any moment, an allow is never older than the cache's time to live: the chain was in the stored list at some moment inside the call, or when it was read for a cache entry no more than that old at the check |
| `GatewayRuns.AllowNoOlderThanTtl` | internal/gateway/chains_cache.go:36-109 | The same for any plugin |
| `GatewayRuns.CachedFrom` | internal/gateway/chains_cache.go:86-109 | Every cached list was read from the store and cached, with its clock reading, by some request |
| `KeyGateway.AuthorizeIsAlone` | internal/gateway/chains_cache.go:73-109 | The cache object and the machine agree: one call's verdict and cache are those of the machine's check, fetch and conclusion run alone; not served from the cache, the verdict is a direct look at the store, forbidden or unavailable exactly as the read fails |
| `KeyGateway.DirectExact` | internal/gateway/chains_cache.go:86-109 | On a sound store that look allows exactly the listed chains, denies the others and finds no key exactly when there is none |
| `GatewayRuns.ListsOkAt` | internal/gateway/chains_cache.go:36-109 | The invariant behind it, path by path: after such deletions every list cached or in flight for the path is within the stored one |
| `Gateway.DeletionAndLists` | internal/gateway/chains_cache.go:36-109 | A deletion keeps that invariant exactly when it meets no list that names a chain |
| `Counterexamples.DeletionMeetsList` | internal/gateway/chains_cache.go:73-109 | The converse: from any reachable state in which such a list is cached or in flight, a deletion can be followed by a request that is allowed although the key is missing at every moment of it |
| `Counterexamples.StaleAllowFailsToSign` | internal/gateway/chains_cache.go:73-84 | An explicit run of that kind from the start, after which the plugin fails to sign |
| `KeyGateway.ReturnedSignatureAuthorised` | internal/plugin/path_sign.go:70-119 | Whatever the caches hold and with Delete allowed, the r and s of every returned signature are those of an entry that was stored at some moment of the request with a non-empty list naming the chain; an EVM result has one byte more, a Cosmos result is exactly those 64 bytes and comes with a key that compresses |
| `KeyGateway.SignatureAuthorised` | internal/plugin/path_sign.go:70-119 | The same of every signature the plugin gives out, returned or not |
| `GatewayRuns.SignedByStored` | internal/plugin/path_sign.go:70-119 | The same for any plugin: the signer is the entry stored at the moment of signing, and the verdict was an allow |
| `KeyGateway.EvmResultRecovers` | internal/signer/evm/evm.go:73-93 | With Delete and re-creation allowed, an EVM result is 65 bytes with recovery id 0 or 1 and recovers to the public key it was checked against |
| `KeyGateway.CosmosKeySigned` | internal/signer/cosmos/cosmos.go:188-201 | If, until the request had its public key, every deletion of the path met no public key, cached or in flight, nor the request between its signature and its key, then the compressed public key returned with a Cosmos signature is that of the private key that signed |
| `GatewayRuns.ReturnedKeySigned` | internal/vault/client.go:263-308 | The same for any lawful plugin, on either signing path |
| `KeyGateway.ReturnedKeyDecompressed` | internal/vault/client.go:293-308 | Under the same condition, on either signing path, the returned public key is the signing entry's 33 bytes decompressed |
| `GatewayRuns.KeysKeptAt` | internal/vault/client.go:263-308 | The invariant behind it: until the request has its key, every public key cached or in flight for the path is the stored one; from then on the key it has is the signer's, whatever is deleted |
| `Gateway.DeletionAndKeys` | internal/vault/client.go:263-308 | A deletion keeps that invariant exactly when it meets no key and no request between its signature and its key |
| `Counterexamples.DeletionMeetsKey` | internal/vault/client.go:263-308 | The converse for any plugin: from any reachable state that has that invariant and in which a deletion meets one, it can be followed by a re-creation and by a request that returns one of the two public keys with a signature by the other, if signing and assembly succeed |
| `Counterexamples.KeyOutlived` | internal/signer/cosmos/cosmos.go:188-201 | The same for the plugin's keys: the first deletion that meets a public key, or a request not for EVM between its signature and its key, leads on to a returned public key that is not the signer's, if the new private key has another public key and signs the digest |
| `Counterexamples.RecreatedKeyMismatch` | internal/signer/cosmos/cosmos.go:188-201 | A run of that kind from the start: the public key is cached, the key deleted and created again, and a Cosmos request returns a public key that is not the signer's |
| `KeyGateway.KeyViewLawful` | internal/gateway/chains_cache.go:62-71 | Growing entries keep their list readable, keep its chains and keep the public key: what the gateway's invariant needs of the plugin |
| `Caches.ChainsCache.Get` | internal/gateway/chains_cache.go:36-45 | The cached list, whether it is within the TTL, and whether there is one |
| `Caches.ChainsCache.Set` | internal/gateway/chains_cache.go:47-54 | Replaces the entry of that path alone |
| `Caches.ChainsCache.Invalidate` | internal/gateway/chains_cache.go:56-60 | Removes the entry of that path alone |
| `Caches.ChainsCache.AuthorizeChain` | internal/gateway/chains_cache.go:73-84 | Verdict and cache are those of the specification that `KeyGateway.AuthorizeIsAlone` ties to the machine and to the store |
| `Caches.ChainsCache.AuthorizeChainFetch` | internal/gateway/chains_cache.go:86-109 | The same for the fetch: a readable list is cached and judged; not-found, forbidden and failed reads leave the cache alone |
| `Caches.PubKeyCache.GetPublicKey` | internal/vault/client.go:263-308 | A cached key is returned unread, a key that was read is cached, errors cache nothing, the caller's buffer is new and none of the cache's, and the cache's only new buffers are new ones |
| `Caches.PubKeyCache.Serve` | internal/vault/client.go:263-308 | For any sequence of reads and of writes into buffers given out before, at any index: every answer and the final cache are those of the reads alone |
| `Caches.FirstReadStays` | internal/vault/client.go:257-308 | Over any such sequence the first key read for a path stays its cached key |
| `Caches.LaterReadsAgree` | internal/vault/client.go:257-308 | Once a read of a path was answered with a key, every later read is answered with the same, whatever the plugin would say and whatever callers write |
| `Signing.EntryPartsExact` | internal/plugin/path_sign.go:114-119 | For every 65-byte signature, hex out, hex in, big integer and 32-byte fill give back the first 64 bytes, leading zeros included; there is a result exactly when the list names the chain and signing succeeds |
| `Signing.ClientSignIsEntry` | internal/vault/client.go:312-355 | The whole call through client and plugin is the stored entry's own signature of the digest |
| `Signing.SignWithRecovery` | internal/signer/evm/evm.go:73-93 | Filling the buffer and trying the ids in place finds the first recovery id that leads back to the key |
| `Signing.FillBytes` | internal/signer/evm/evm.go:82-84 | Writes the fixed-width bytes at their offset and leaves the rest of the buffer alone |
| `Signing.RecoveryExact` | internal/signer/evm/evm.go:85-93 | A result recovers to the key and keeps r and s, the id is 1 only if 0 does not recover, and there is none exactly when neither id recovers |
| `Signing.NormalizeEthereumV` | internal/signer/evm/evm.go:97-103 | Works on a copy of the signature |
| `Signing.NormalVKeeps` | internal/signer/evm/evm.go:97-103 | r and s stay, a recovery id below 27 goes up by 27, anything else stays, and a second application changes nothing |
| `Bytes.HexRoundTrip` | internal/vault/client.go:341-354 | Hex decoding undoes hex encoding for all bytes |
| `Bytes.HexDecodeExact` | internal/plugin/path_sign.go:62 | A text decodes to some bytes exactly if it is their hex text with letters small or capital |
| `Bytes.HexText` | internal/plugin/path_sign.go:116-117 | The hex text: for each byte its high and then its low digit, in small letters |
| `Bytes.FillRoundTrip` | internal/signer/evm/evm.go:82-84 | Filling the big-endian number of a byte string into its own width gives the byte string back |
| `Bytes.ToNatFirst` | internal/vault/client.go:346-357 | The first byte of the number weighs most |
| `Amino.GateExact` | internal/signer/cosmos/cosmos.go:102-111 | SignAmino reaches the hash step exactly when the tokens are one well-formed value with no repeated name in any object at any depth (numbers in range, nesting within the library's limit); that value is the only one with these tokens, and its first-wins and last-wins readings agree |
| `Amino.RepeatReported` | internal/signer/cosmos/cosmos.go:125-186 | Every well-formed value with a repeated name somewhere is reported as such, and the reported name does occur twice in some object |
| `Amino.SameTextSameValue` | internal/signer/cosmos/cosmos.go:29-35 | Two accepted documents have the same canonical text exactly when they denote the same decoded value |
| `Amino.CanonicalFixpoint` | internal/signer/cosmos/cosmos.go:29-35 | The canonical text denotes the same value, passes the gate and is its own canonical text |
| `Amino.OrderNeverMatters` | internal/signer/cosmos/cosmos.go:102-111 | Reordering members at any depth, and respelling numbers, keeps an acceptable document acceptable and its outcome the same |
| `Amino.HashedAlike` | internal/signer/cosmos/cosmos.go:102-111 | Two acceptable documents are hashed alike exactly when they differ in the order of members at any depth and the spelling of numbers alone |
| `Amino.CanonicalIsSorted` | internal/signer/cosmos/cosmos.go:102-111 | What is hashed is a reordering of the document with the members sorted at every depth |
| `Amino.ReorderedExact` | internal/signer/cosmos/cosmos.go:29-35 | Without repeated names, to differ in those alone is exactly to denote the same decoded value |
| `Amino.ShowRoundTrip` | internal/signer/cosmos/cosmos.go:29-35 | The printed tree is sorted and without repeats, and decoding it gives the value back |
| `Amino.ReadingsAgree` | internal/signer/cosmos/cosmos.go:102-111 | Without repeats, first-wins and last-wins decoding agree |
| `Scanner.ScanTokens` | internal/signer/cosmos/cosmos.go:125-147 | On a well-formed value the scanner consumes exactly that value's tokens, in any context, or reports a repeated name |
| `Scanner.ScanMemberTokens` | internal/signer/cosmos/cosmos.go:149-173 | The same for the members of an object, with the set of names already seen |
| `Scanner.ScanItemTokens` | internal/signer/cosmos/cosmos.go:175-186 | The same for the items of an array |
| `Scanner.Decoder.ScanJSONValue` | internal/signer/cosmos/cosmos.go:125-147 | The recursive scanner over a decoder that advances in place computes its specification and leaves the decoder where that says |
| `Scanner.Decoder.ScanJSONObject` | internal/signer/cosmos/cosmos.go:149-173 | The same for objects, with the seen set grown in a loop |
| `Scanner.Decoder.ScanJSONArray` | internal/signer/cosmos/cosmos.go:175-186 | The same for arrays |
| `Scanner.DetectDuplicateJSONKeys` | internal/signer/cosmos/cosmos.go:116-120 | Scans one value from the start of the document |
| `Json.ParseTokens` | internal/signer/cosmos/cosmos.go:29-35 | The grammar of section 2 of RFC 8259 on tokens: parsing finds the tree again whatever follows it |
| `Json.ParseSound` | internal/signer/cosmos/cosmos.go:29-35 | What the parser accepts is the token sequence of the tree it returns |
| `Limiter.RunRefines` | internal/gateway/principal_limiter.go:40-86 | After any run of get and sweep on non-empty keys with increasing clock readings, the map is the move-to-front recency list cut to the capacity |
| `Limiter.GetRefines` | internal/gateway/principal_limiter.go:40-54 | One get is a move to the front of the list, cut to the capacity |
| `Limiter.SweepRefines` | internal/gateway/principal_limiter.go:75-86 | One sweep cuts a suffix off the list |
| `Limiter.RunBounded` | internal/gateway/principal_limiter.go:40-72 | With arbitrary clock readings the map never exceeds its capacity and no two keys share a limiter |
| `Limiter.LimiterStays` | internal/gateway/principal_limiter.go:40-54 | A key keeps its limiter for as long as it stays in the map |
| `Limiter.EmptyKeyOverflows` | internal/gateway/principal_limiter.go:59-72 | Why keys must be non-empty: an insertion into a full map can go over the capacity exactly when the empty key is an oldest entry, must exactly when it is the only one, and never goes over by more than one |
| `Limiter.EmptyKeyStays` | internal/gateway/principal_limiter.go:40-72 | A run with capacity one, a get of the empty key and then of another, ends with two entries |
| `Limiter.PrincipalLimiters.constructor` | internal/gateway/principal_limiter.go:28-38 | An empty table; a capacity of zero or less becomes 10000 |
| `Limiter.PrincipalLimiters.Get` | internal/gateway/principal_limiter.go:40-54 | The method on entries updated in place makes one transition of the run theorems and adds it to the recorded history, so that, whatever was done before, the table is within its capacity and, with increasing clock readings, holds exactly the most recently used keys; a new key gets a new limiter |
| `Limiter.PrincipalLimiters.EvictOldest` | internal/gateway/principal_limiter.go:59-72 | The scan, in any order, removes an oldest entry and nothing else, or nothing if the key found is empty |
| `Limiter.PrincipalLimiters.Sweep` | internal/gateway/principal_limiter.go:75-86 | The same for a sweep, which removes exactly the entries last seen before the cutoff and counts them |
| `Limiter.PrincipalLimiters.DropIdle` | internal/gateway/principal_limiter.go:75-86 | The loop, in any order, removes exactly the entries last seen before the cutoff |
| `Principal.PrincipalKey` | internal/gateway/auth.go:19-36 | The hex loop writes the digits of the digest, then a bar and the address |
| `Principal.KeyInjective` | internal/gateway/auth.go:19-36 | The key determines digest and address and is never empty |
| `Principal.KeyText` | internal/gateway/auth.go:19-36 | The key is the digest in hex, a bar and the address |
| `Principal.SharedBudget` | internal/gateway/auth.go:19-36 | At any moment of any run whose keys come from principalKey, two callers with live entries share a limiter exactly when digest and address agree |
| `Principal.AddressStripped` | internal/gateway/auth.go:40-51 | The port, and the brackets of an IPv6 literal, are stripped; an address without a colon stays |
| `Pages.ListPage` | internal/gateway/gateway.go:911-992 | In 64-bit arithmetic, for every offset that a cursor can carry, slicing stays in bounds without overflow and gives the page of the specification |
| `Pages.ParseListLimit` | internal/gateway/gateway.go:1034-1049 | A parsed limit is between 1 and 1000 |
| `Pages.LimitOfText` | internal/gateway/gateway.go:1034-1049 | By its text: a decimal number, with any sign and leading zeros, gives itself from 1 to 1000, 100 below and 1000 above, an error outside 64 bits; no text gives 100 |
| `Pages.TextOfLimit` | internal/gateway/gateway.go:1034-1049 | Only such texts give a limit |
| `Pages.ParseListCursor` | internal/gateway/gateway.go:1061-1077 | A parsed offset is not negative and fits the machine integer |
| `Pages.SessionCovers` | internal/gateway/gateway.go:911-992 | Following the cursors over a fixed list with any limit per page, the pages so far concatenate to a prefix of the list, and the cursor is empty exactly when that prefix is the list |
| `Pages.SessionEnds` | internal/gateway/gateway.go:988-992 | Every page that leaves a cursor is non-empty, so a session ends within one page more than there are keys |
| `Pages.SessionContinues` | internal/gateway/gateway.go:911-992 | A cursor can always be followed, with any positive limit |
| `Pages.CursorBinding` | internal/gateway/gateway.go:923-928 | A cursor is refused exactly when it was issued for a non-empty prefix other than the given one |
| `Pages.ReplyExact` | internal/gateway/gateway.go:911-947 | A reply is an error exactly for a bad limit, a text that is no cursor or carries no valid offset, and the cursor of another prefix; a page is no longer than its limit |
| `WorkerPool.ScheduleIrrelevant` | internal/gateway/gateway.go:948-987 | In every schedule each index is in exactly one of unsent, held and done; the number of steps is bounded; and when the handler returns, the entries are those of handling each index on its own: its path, its list if the read succeeded, and the flag that says so |
| `WorkerPool.StepProgresses` | internal/gateway/gateway.go:958-987 | Every step of every schedule decreases the measure |
| `WorkerPool.NeverStuck` | internal/gateway/gateway.go:958-987 | Until the handler has returned some step is possible: no deadlock |
| `Listing.DrillAll` | internal/plugin/path_keys.go:189-209 | For every set of valid stored paths, drilling down from the empty prefix and rejoining visits every stored path exactly once and nothing else |
| `Listing.DrillExact` | internal/plugin/path_keys.go:189-209 | The same from any prefix, for the stored paths below it |
| `Listing.DrilledPrefixAccepted` | internal/keypath/keypath.go:29-39 | Every prefix met on the way down is accepted by the plugin |
| `Listing.EnvironmentListing` | internal/gateway/gateway.go:1021-1029 | A two-segment prefix, with or without trailing slash, rejoins to exactly the stored paths under it |
| `Listing.JoinIsBelowDir` | internal/gateway/gateway.go:1021-1029 | Rejoining adds the slash exactly when the plugin's listing did |
| `Listing.PluginListExact` | internal/plugin/path_keys.go:189-209 | A listing is refused exactly for an invalid prefix; a name is listed exactly if some stored path shows as it below the prefix |
| `OpenApi.NormalizeSpecIdempotent` | cmd/swagger-postprocess/main.go:61-91 | A second pass changes nothing exactly when every request-body schema is settled: if one object branch of its `oneOf` survives, that branch has no `oneOf` list, or one with no bare branch that is not empty and not a single object. A branch without `oneOf` of its own is settled |
| `OpenApi.NormalIdempotent` | cmd/swagger-postprocess/main.go:61-91 | The same for any two prefixes neither of which begins with the other and any discriminator without old references |
| `SchemaUnion.NormalizeIdempotent` | cmd/swagger-postprocess/main.go:297-334 | The same for one schema |
| `SchemaUnion.NestedUnionChangesAgain` | cmd/swagger-postprocess/main.go:297-334 | A schema on which the second pass does change something: its only branch has an empty `oneOf` |
| `SchemaUnion.NormalizeSchema` | cmd/swagger-postprocess/main.go:297-334 | The filter loop and the three-way switch compute the specified schema |
| `SchemaUnion.DiscriminateIdempotent` | cmd/swagger-postprocess/main.go:98-128 | Tagging after normalising does not change when a second pass is the identity |
| `OpenApi.NormalizeSpecResolves` | cmd/swagger-postprocess/main.go:130-164 | With no key under the new prefix beforehand, a reference that resolved before the whole pass resolves after it, in its rewritten form, to the rewritten form of the same schema; one not under the new prefix that did not resolve still does not |
| `Mappings.ResolutionPreserved` | cmd/swagger-postprocess/main.go:130-164 | The same for the rename alone and any two prefixes neither of which begins with the other |
| `Mappings.ResolutionUnderNewPrefix` | cmd/swagger-postprocess/main.go:132-141 | A reference to a key already under the new prefix keeps its meaning exactly when no old key is renamed onto it or both have the same rewritten form |
| `Mappings.RenamedOnto` | cmd/swagger-postprocess/main.go:132-141 | A document with a name under both prefixes, in which the reference to the one under the new prefix comes to mean the other |
| `Mappings.RewrittenPath` | cmd/swagger-postprocess/main.go:149-164 | Path by path, the walk changes exactly the member strings that begin with the old reference; strings in arrays and everything else stay |
| `Refs.RenameSchemaKeys` | cmd/swagger-postprocess/main.go:132-141 | Whatever order the map is iterated in, and whether or not keys added on the way come up, the renamed table is the same |
| `Refs.RewriteRefs` | cmd/swagger-postprocess/main.go:149-164 | The recursive walk, members in any order, computes the rewritten tree |
| `Mappings.ValidateSpecRefs` | cmd/swagger-postprocess/main.go:169-208 | Fails exactly when, at some path of the document, a discriminator mapping string into the schema table does not resolve; the reported lines are exactly those of all such strings |
| `Postprocess.Process` | cmd/swagger-postprocess/main.go:23-27 | Normalising and then validating any document passes exactly if its mappings resolve when processed with an empty tag, and no EVM sign operation keeps a `oneOf` to tag or the three request schemas are there; the first half holds for a document whose mappings resolve and that has no key under the new prefix |
| `Tags.ProcessedExact` | cmd/swagger-postprocess/main.go:23-27 | The same of the specified document, for every document |
| `Validity.ProcessedKnown` | cmd/swagger-postprocess/main.go:23-27 | The same for documents whose mappings resolve and that have no key under the new prefix, with nothing left to ask of the processed document |
| `Tags.NormalSplits` | cmd/swagger-postprocess/main.go:61-128 | For any test of references and any document: every mapping string passes after the processing exactly if every one passes after processing with an empty tag and each tagged schema gets a tag that passes |
| `Validity.NormalOk` | cmd/swagger-postprocess/main.go:61-128 | For any test of references: if every mapping string, rewritten, passes before, every one passes after exactly if each tagged schema gets a tag that passes |
| `Mappings.Walk` | cmd/swagger-postprocess/main.go:181-202 | The recursive walk adds to `bad` exactly the lines of the dangling mappings below the node |
| `Postprocess.NormalizeSpec` | cmd/swagger-postprocess/main.go:61-91 | The five stages with their loops, maps in any order, compute the specified document, about which the following rows speak |
| `Outcome.SchemesAfter` | cmd/swagger-postprocess/main.go:66-71 | In the scheme table `bearerauth` is gone, `BearerAuth` holds what it held, and every other scheme stays |
| `Outcome.SecurityAfter` | cmd/swagger-postprocess/main.go:232-261 | The requirements of every operation: none if the single one had an empty name and no scopes; otherwise each in its place with that scheme renamed and everything else kept |
| `Outcome.RequirementsResolve` | cmd/swagger-postprocess/main.go:66-90 | A requirement that names a scheme of the document still does, and it is the same scheme exactly unless `bearerauth` was put over a different `BearerAuth` |
| `Outcome.ServersAfter` | cmd/swagger-postprocess/main.go:210-230 | Each server in its place: the URL gains `http://` exactly when it is not empty and has neither scheme nor leading slash; other members are only rewritten |
| `Outcome.SchemaAfter` | cmd/swagger-postprocess/main.go:98-128 | The request schema of every media type is normalised and, where the path signs for EVM and a union is left, tagged |
| `Outcome.UnionOffers` | cmd/swagger-postprocess/main.go:297-334 | A normalised union offers the branches that are not bare, or is the one that is left; the rest of the schema stays unless a single object takes its place |
| `Outcome.KeptInOrder` | cmd/swagger-postprocess/main.go:306-316 | Those branches are the ones other than `{"type": "object"}`, in their order and as often as they occur |
| `Outcome.TagLeads` | cmd/swagger-postprocess/main.go:119-126 | The tag maps `raw_tx`, `personal_message` and `eip712_digest`, each to the schema of its own request, found under the old name before and the new one after |
| `Outcome.RestAfter` | cmd/swagger-postprocess/main.go:61-64 | The version is 3.0.3, and every other top-level member is only rewritten |
| `Postprocess.NormalizeServers` | cmd/swagger-postprocess/main.go:210-230 | Edits exactly the server objects whose URL is a non-empty string with neither scheme nor leading slash |
| `Postprocess.NormalizeSecurity` | cmd/swagger-postprocess/main.go:232-261 | A lone requirement with an empty name and no scopes becomes no requirement; otherwise every `bearerauth` is renamed |
| `Postprocess.NormalizeRequestBody` | cmd/swagger-postprocess/main.go:263-295 | Normalises the schema of every media type and nothing else |
| `Postprocess.InjectEvmDiscriminator` | cmd/swagger-postprocess/main.go:98-128 | Tags every media type's schema that has a `oneOf` and nothing else |
| `Postprocess.RenameSchemaPrefix` | cmd/swagger-postprocess/main.go:132-145 | Renames the table, then rewrites the references of the whole document |
| `Renewal.IntervalExact` | internal/vault/client.go:213-232 | For an integer TTL, rounding aside: not negative, the interval is the larger of 30 s and a third of the TTL in whole seconds exactly when that fits a 64-bit nanosecond count; negative, it is 30 s as long as the third fits |
| `Renewal.RoundedIntervalExact` | internal/vault/client.go:213-232 | The same with both float operations rounded, for every 64-bit integer TTL that is not negative; and wherever the third fits, rounding changes nothing |
| `Renewal.NegativeTtlWraps` | internal/vault/client.go:213-232 | The first negative TTL whose third does not fit wraps round to an interval of centuries |
| `Renewal.FloatInterval` | internal/vault/client.go:213-232 | For a float TTL of either sign whose third is in range, the same with the fraction of the third dropped |
| `Renewal.TickAfterGrant` | internal/vault/client.go:172-201 | Over any run, the tick after a grant that the client saw, as an integer, a float or in a form it does not recognise, precedes expiry exactly when the grant is over 30 s |
| `Renewal.ShownInterval` | internal/vault/client.go:213-232 | The interval of a TTL as it is shown: 30 s for a form that is not recognised, whatever it was |
| `Renewal.ThreeTicksFit` | internal/vault/client.go:213-232 | Three ticks fit into the TTL exactly when it is at least 90 s |
| `Renewal.AttemptBeforeExpiry` | internal/vault/client.go:175-201 | Over any run with grants of at least 90 s, never three failed renewals in a row, and each grant that the client did not see at least three of the intervals in use, the next attempt is no later than expiry: two failed ticks are survived |
| `Renewal.TickAfterUnseenGrant` | internal/vault/client.go:186-191 | When the lookup after a renewal fails, the next tick precedes expiry exactly when the old interval is below the new TTL |
| `Renewal.UnseenShorterGrant` | internal/vault/client.go:186-191 | A grant of 600 s after one of 3600 s that the client did not see: the next tick comes after expiry |
| `Renewal.RenewalLoop` | internal/vault/client.go:172-201 | The loop's tick time and interval are those of the run, and failures are reported exactly as often as a renewal or the lookup after it fails |
| `Renewal.FirstLookup` | internal/vault/client.go:144-167 | Lookups go on until the first success; the delays between them never shrink, are at least 1 s and at most 30 s |
| `Renewal.TableIsDoubling` | internal/vault/client.go:144-161 | The delay table is doubling from 1 s, capped at 30 s |
| `Renewal.BackoffDoubles` | internal/vault/client.go:144-161 | Doubling: one second, then twice the last delay, never over 30 s |

## Left out

- HTTP routing, middleware, probes, metrics, logging and status codes: plumbing, each settled by one branch.
- Command line, configuration and the one-second health cache: input, output and table lookups.
- Vault's field parsing and the choice between create and update by existence: requests are taken as already routed.
- Elliptic curves, hashes, HMAC, bech32, transaction coding and protobuf checks: library code, here functions of which only the stated laws are used.
- Token-bucket arithmetic: a limiter is an object with an identity.
- JSON lexing: the scanner and the parser start from tokens, so white space and escapes are already gone; a token carries the decoded string or the number's text.
- The `already_existed` flag and the read-only handlers (key information, chain list): they would only add easy members.
- Counterexamples.KeyOutlived: says nothing of an EVM request that a deletion met between its signature and its key; its assembly with the new key fails unless the signature recovers to that key.
- Unicode case folding in chain names: `ToLower` is modelled on ASCII; no other letter lowers to a letter of a chain name.
- PluginRuns.KeyBornOnce: counts keys that are stored; a create whose store fails has generated a key that is lost, and the next one generates again.
- Runs.SerialInEffectOrder: a call whose store fails is taken to have its effect when it loads, since it changes nothing; the failing store itself is no step.
- Pages.ListPage: the list is taken to be shorter than the largest integer less 1000, as any slice in memory is.
- Signing.SignWithRecovery: r and s are taken to fit 32 bytes, which the plugin's output always does; the library panics on wider ones.
- Postprocess.NormalizeSpec: nested maps are values put back into their parents, not objects updated in place; a decoded document is a tree, so no map has two parents and aliasing does not arise.
- Mappings.ValidateSpecRefs: the joined error message is left out; its lines are modelled.
- Renewal.RenewalLoop: ticks are exact and calls take no time; grants are integers in range; a token that is not renewable ends the loop before the first tick and is not modelled.
- Amino.GateExact: documents nested deeper than the JSON library's limit of 10000, and numbers outside the floating-point range, are rejected as the library does; number texts are not preserved, only number values.
- Renewal.IntervalExact: float arithmetic is exact here; rounding is in `Renewal.RoundedIntervalExact`, and not modelled for a TTL that is a float or is negative beyond the range.
- Caches.PubKeyCache.GetPublicKey: one call at a time; concurrent readers and their late cache writes are steps of the machine in `Gateway`.
