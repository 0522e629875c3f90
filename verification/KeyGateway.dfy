/** The gateway over the plugin's key entries. */
module KeyGateway {
  import opened Text
  import opened Bytes
  import opened Chains
  import opened Plugin
  import opened PluginRuns
  import opened Gateway
  import opened GatewayRuns
  import opened Signing
  import opened Caches

  type KeyRun = GRun<PluginCall, KeyEntry, Response>

  function AssembleFor(c: Crypto, chain: string, digest: Bytes, parts: Parts, pub: Bytes): Option<Bytes> {
    if chain == EVM then AssembleEvm(c, digest, parts, pub) else AssembleCosmos(c, parts, pub)
  }

  function KeyView(c: Crypto): View<KeyEntry> {
    View((e: KeyEntry) => Canonicalise(e.chains),
         (e: KeyEntry, chain: string, digest: Bytes) => EntryParts(c, e, chain, digest),
         (e: KeyEntry) => PublicKeyOf(c, e),
         (chain: string, digest: Bytes, parts: Parts, pub: Bytes) => AssembleFor(c, chain, digest, parts, pub))
  }

  ghost predicate IsKeyRun(c: Crypto, ttl: int, store: Store, run: KeyRun) {
    IsGRun(Handlers(c), KeyView(c), ttl, store, run) && StoreOk(c, store)
  }

  lemma CanonicalReadsBack(cs: seq<string>)
    requires Canonical(cs)
    ensures Canonicalise(cs) == Parsed(cs)
  {
    CanonicalParses(cs);
  }

  lemma GrownReadsMore(c: Crypto, n: string, e: KeyEntry, e': KeyEntry)
    requires Sound(c).ok(n, e') && Sound(c).grows(e, e')
    ensures ReadsMore(KeyView(c), e, e')
  {
    CanonicalReadsBack(e'.chains);
    if Canonicalise(e.chains).Parsed? { CanonicaliseWithin(e.chains, e'.chains); }
  }

  lemma KeyViewLawful(c: Crypto)
    ensures ViewLawful(KeyView(c), Sound(c))
  {
    var view, k := KeyView(c), Sound(c);
    forall n: string, e: KeyEntry, e': KeyEntry | k.ok(n, e') && k.grows(e, e') ensures ReadsMore(view, e, e') {
      GrownReadsMore(c, n, e, e');
    }
  }

  /** Reading a list whose members all occur in a canonical list. */
  lemma CanonicaliseWithin(cs: seq<string>, ds: seq<string>)
    requires Canonical(ds) && Elements(cs) <= Elements(ds) && Canonicalise(cs).Parsed?
    ensures Elements(Canonicalise(cs).chains) <= Elements(ds)
  {
    if cs != [] {
      forall c | c in cs ensures Known(c) && Normalise(c) == c {
        assert c in Elements(cs);
        KnownIsNormal(c);
      }
      assert Normalised(cs) == Elements(cs);
      CanonIsCanonical(Elements(cs));
    }
  }

  /**
   In every interleaving each verdict of authorizeChain that denies or finds no key, and each that allows a path whose
   deletions met no list, equals a direct look at the stored list at some moment inside that call, late cache writes
   included.
   */
  lemma AuthorizeLinearizable(c: Crypto, ttl: int, store: Store, run: KeyRun, j: nat, id: nat) returns (i: nat)
    requires IsKeyRun(c, ttl, store, run) && j < |run.states|
    requires id in run.states[j].calls && run.states[j].calls[id].verdict.Some?
    requires run.states[j].calls[id].verdict.value in {Allow, Deny, Missing}
    requires run.states[j].calls[id].verdict.value.Allow? ==> ListsSpared(run, j, run.states[j].calls[id].path, id)
    ensures var call := run.states[j].calls[id];
            && i < j && Asking(run, i, id, call)
            && var now := run.states[i].plugin.store;
               match call.verdict.value
               case Missing => call.path !in now
               case Allow => call.path in now && call.chain in now[call.path].chains
               case Deny => call.path in now && call.chain !in now[call.path].chains
               case _ => false
  {
    HandlersLawful(c);
    KeyViewLawful(c);
    forall n | n in store ensures Sound(c).ok(n, store[n]) { }
    i := VerdictWithin(Handlers(c), Sound(c), KeyView(c), ttl, store, run, j, id);
    PluginInvAt(Handlers(c), Sound(c), KeyView(c), ttl, store, run, i);
    var now := run.states[i].plugin.store;
    var path := run.states[j].calls[id].path;
    if path in now {
      assert Sound(c).ok(path, now[path]);
      CanonicalReadsBack(now[path].chains);
    }
  }

  /**
   With deletions at any moment, an allow is never older than the cache's time to live: the chain was in the stored
   list at some moment inside the call, or when it was read for a cache entry no more than `ttl` old at the check.
   */
  lemma AllowWasListed(c: Crypto, ttl: int, store: Store, run: KeyRun, j: nat, id: nat)
    returns (i: nat, l: nat, writer: nat, m: nat, cached: Cached)
    requires IsKeyRun(c, ttl, store, run) && j < |run.states|
    requires id in run.states[j].calls && run.states[j].calls[id].verdict == Some(Allow)
    ensures var call := run.states[j].calls[id];
            && i < j && call.path in run.states[i].plugin.store
            && call.chain in run.states[i].plugin.store[call.path].chains
            && (Asking(run, i, id, call) ||
                (m < j && ServedFresh(KeyView(c), ttl, run, id, call, i, l, writer, m, cached)))
  {
    HandlersLawful(c);
    forall n | n in store ensures Sound(c).ok(n, store[n]) { }
    i, l, writer, m, cached := AllowNoOlderThanTtl(Handlers(c), KeyView(c), ttl, store, run, j, id);
    PluginInvAt(Handlers(c), Sound(c), KeyView(c), ttl, store, run, i);
    var now, path := run.states[i].plugin.store, run.states[j].calls[id].path;
    assert Sound(c).ok(path, now[path]);
    CanonicalReadsBack(now[path].chains);
  }

  // ------------------------------------------------------------------ one call alone

  type KeyState = GState<PluginCall, KeyEntry, Response>

  /** The list of a path as the plugin has it, or as it fails to give it. */
  predicate Reads(store: Store, path: string, read: ListRead) {
    match read
    case Listed(raw) => path in store && raw == store[path].chains
    case ListNotFound => path !in store
    case ListForbidden => true
    case ListFails => true
  }

  /** The own steps of one authorizeChain call, one after the other, with a read that succeeds or fails. */
  function Alone(c: Crypto, ttl: int, s: KeyState, id: nat, now: int, read: ListRead, later: int): KeyState
    requires id in s.calls && s.calls[id].phase.Checking?
  {
    var h, view := Handlers(c), KeyView(c);
    var checked := GApply(h, view, ttl, s, Check(id, now));
    if !checked.calls[id].phase.Fetching? then checked
    else if read.ListForbidden? then GApply(h, view, ttl, checked, FetchFails(id, Forbidden))
    else if read.ListFails? then GApply(h, view, ttl, checked, FetchFails(id, Unavailable))
    else
      var fetched := GApply(h, view, ttl, checked, Fetch(id));
      if fetched.calls[id].phase.Fetched? then GApply(h, view, ttl, fetched, Conclude(id, later)) else fetched
  }

  /**
   The cache object and the machine agree: one authorizeChain call is the machine's check, fetch and conclusion run
   alone. A verdict not served from the cache is a direct look at the store, or the failure of the read.
   */
  lemma AuthorizeIsAlone(c: Crypto, ttl: int, s: KeyState, id: nat, now: int, read: ListRead, later: int)
    requires id in s.calls && s.calls[id].phase.Checking? && Reads(s.plugin.store, s.calls[id].path, read)
    ensures var call, end := s.calls[id], Alone(c, ttl, s, id, now, read, later);
            var (v, entries) := Authorized(s.cache, ttl, call.path, call.chain, now, read, later);
            && end == s.(cache := entries, calls := end.calls) && end.calls == s.calls[id := Ruled(call, v)]
    ensures var call := s.calls[id];
            var (v, entries) := Authorized(s.cache, ttl, call.path, call.chain, now, read, later);
            if CacheAllows(s.cache, ttl, call.path, call.chain, now) then v == Allow && entries == s.cache
            else if read.ListForbidden? then v == Forbidden && entries == s.cache
            else if read.ListFails? then v == Unavailable && entries == s.cache
            else v == Direct(KeyView(c), s.plugin.store, call.path, call.chain)
  {
    FetchIsDirect(c, s.plugin.store, s.calls[id].path, s.calls[id].chain, read);
    var end := Alone(c, ttl, s, id, now, read, later);
    var (v, entries) := Authorized(s.cache, ttl, s.calls[id].path, s.calls[id].chain, now, read, later);
    assert end.calls == s.calls[id := Ruled(s.calls[id], v)];
  }

  lemma FetchIsDirect(c: Crypto, store: Store, path: string, chain: string, read: ListRead)
    requires Reads(store, path, read)
    ensures FetchVerdict(read, chain) ==
              if read.ListForbidden? then Forbidden
              else if read.ListFails? then Unavailable
              else Direct(KeyView(c), store, path, chain)
  {}

  /** On a sound store that look is plain: allowed if listed, denied if not, missing if there is no key. */
  lemma DirectExact(c: Crypto, store: Store, path: string, chain: string)
    requires StoreOk(c, store)
    ensures Direct(KeyView(c), store, path, chain) ==
              if path !in store then Missing else if chain in store[path].chains then Allow else Deny
  {
    if path in store { CanonicalReadsBack(store[path].chains); }
  }

  /**
   With deletions allowed and whatever the caches hold: no request ever carries a signature whose chain was not in the
   stored, non-empty list at the moment the plugin loaded the entry, and the signature is that entry's.
   */
  lemma SignatureAuthorised(c: Crypto, ttl: int, store: Store, run: KeyRun, j: nat, id: nat) returns (i: nat)
    requires IsKeyRun(c, ttl, store, run) && j < |run.states|
    requires id in run.states[j].calls && run.states[j].calls[id].signer.Some?
    ensures var call := run.states[j].calls[id];
            && i < j && id in run.states[i].calls && SameRequest(run.states[i].calls[id], call)
            && call.path in run.states[i].plugin.store
            && var e := run.states[i].plugin.store[call.path];
               && call.signer.value.0 == e
               && e.chains != [] && Normalise(call.chain) in e.chains
               && c.sign(e.privateKey, call.digest).Some? && |c.sign(e.privateKey, call.digest).value| == 65
               && Fits(call.signer.value.1)
               && Halves(call.signer.value.1) == c.sign(e.privateKey, call.digest).value[..64]
  {
    i := SignedByStored(Handlers(c), KeyView(c), ttl, store, run, j, id);
    var call := run.states[j].calls[id];
    EntryPartsExact(c, call.signer.value.0, call.chain, call.digest);
  }

  /**
   Hence, with deletions allowed and whatever the caches hold, no run returns a signature whose chain was absent from
   the stored list when the plugin loaded the entry: the r and s that are returned are that entry's. A Cosmos result is
   exactly those 64 bytes.
   */
  lemma ReturnedSignatureAuthorised(c: Crypto, ttl: int, store: Store, run: KeyRun, j: nat, id: nat) returns (i: nat)
    requires IsKeyRun(c, ttl, store, run) && j < |run.states|
    requires id in run.states[j].calls && run.states[j].calls[id].phase.Returned?
    ensures var call := run.states[j].calls[id];
            && i < j && id in run.states[i].calls && SameRequest(run.states[i].calls[id], call)
            && call.path in run.states[i].plugin.store
            && var e := run.states[i].plugin.store[call.path];
               && e.chains != [] && Normalise(call.chain) in e.chains
               && c.sign(e.privateKey, call.digest).Some? && |c.sign(e.privateKey, call.digest).value| == 65
               && var halves := c.sign(e.privateKey, call.digest).value[..64];
                  if call.chain == EVM
                  then |call.phase.result| == 65 && call.phase.result[..64] == halves
                  else
                    && call.phase.result == halves
                    && |call.phase.pub| == 65 && call.phase.pub[0] == 4 && c.compress(call.phase.pub).Some?
  {
    ShapeAt(Handlers(c), KeyView(c), ttl, store, run, j, id);
    i := SignatureAuthorised(c, ttl, store, run, j, id);
    var call := run.states[j].calls[id];
    ResultHalves(c, call.chain, call.digest, call.signer.value.1, call.phase.pub);
  }

  /** The EVM path appends one byte to r and s, the Cosmos path nothing; it needs a key that compresses. */
  lemma ResultHalves(c: Crypto, chain: string, digest: Bytes, parts: Parts, pub: Bytes)
    requires Fits(parts) && AssembleFor(c, chain, digest, parts, pub).Some?
    ensures var result := AssembleFor(c, chain, digest, parts, pub).value;
            if chain == EVM then |result| == 65 && result[..64] == Halves(parts)
            else result == Halves(parts) && |pub| == 65 && pub[0] == 4 && Compress(c, pub) == c.compress(pub)
    ensures chain != EVM ==> Compress(c, pub).Some?
  {
    RecoveryExact(c, digest, parts, pub);
  }

  /** With deletions allowed, an EVM result always recovers to the public key it was checked against. */
  lemma EvmResultRecovers(c: Crypto, ttl: int, store: Store, run: KeyRun, j: nat, id: nat)
    requires IsKeyRun(c, ttl, store, run) && j < |run.states|
    requires id in run.states[j].calls && run.states[j].calls[id].phase.Returned?
    requires run.states[j].calls[id].chain == EVM
    ensures var call := run.states[j].calls[id];
            && |call.phase.result| == 65 && call.phase.result[64] in {0, 1}
            && c.recover(call.digest, call.phase.result) == Some(call.phase.pub)
  {
    ShapeAt(Handlers(c), KeyView(c), ttl, store, run, j, id);
    var call := run.states[j].calls[id];
    var parts := call.signer.value.1;
    assert AssembleFor(c, call.chain, call.digest, parts, call.phase.pub) == Some(call.phase.result);
    RecoveryExact(c, call.digest, parts, call.phase.pub);
  }

  /** What the library guarantees of the key forms: 33 bytes, and decompression undone by compression. */
  ghost predicate KeyForms(c: Crypto) {
    forall priv: Bytes ::
      && |c.publicKey(priv)| == 33 && c.decompress(c.publicKey(priv)).Some?
      && Compress(c, c.decompress(c.publicKey(priv)).value) == Some(c.publicKey(priv))
  }

  /**
   On either signing path, if the deletions of the path met no key, the public key that a request returns is the signing
   entry's 33 bytes decompressed.
   */
  lemma ReturnedKeyDecompressed(c: Crypto, ttl: int, store: Store, run: KeyRun, j: nat, id: nat)
    requires IsKeyRun(c, ttl, store, run) && j < |run.states|
    requires id in run.states[j].calls && run.states[j].calls[id].phase.Returned?
    requires KeysSpared(run, j, run.states[j].calls[id].path, id)
    ensures var call := run.states[j].calls[id];
            && call.signer.Some? && |call.signer.value.0.compressedPubKey| == 33
            && c.decompress(call.signer.value.0.compressedPubKey) == Some(call.phase.pub)
  {
    HandlersLawful(c);
    KeyViewLawful(c);
    forall n | n in store ensures Sound(c).ok(n, store[n]) { }
    ReturnedKeySigned(Handlers(c), Sound(c), KeyView(c), ttl, store, run, j, id);
  }

  /** If the deletions of the path met no key, the compressed key returned with a Cosmos signature is the signer's. */
  lemma CosmosKeySigned(c: Crypto, ttl: int, store: Store, run: KeyRun, j: nat, id: nat)
    requires IsKeyRun(c, ttl, store, run) && KeyForms(c) && j < |run.states|
    requires id in run.states[j].calls && run.states[j].calls[id].phase.Returned?
    requires KeysSpared(run, j, run.states[j].calls[id].path, id)
    ensures var call := run.states[j].calls[id];
            call.signer.Some? && Compress(c, call.phase.pub) == Some(c.publicKey(call.signer.value.0.privateKey))
  {
    HandlersLawful(c);
    KeyViewLawful(c);
    forall n | n in store ensures Sound(c).ok(n, store[n]) { }
    ReturnedKeySigned(Handlers(c), Sound(c), KeyView(c), ttl, store, run, j, id);
    var i := SignedByStored(Handlers(c), KeyView(c), ttl, store, run, j, id);
    PluginInvAt(Handlers(c), Sound(c), KeyView(c), ttl, store, run, i);
    var call := run.states[j].calls[id];
    var e := call.signer.value.0;
    assert Sound(c).ok(call.path, e);
    assert e.compressedPubKey == c.publicKey(e.privateKey);
  }
}
