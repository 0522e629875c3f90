/**
 The gateway in front of the plugin: signing requests, the allow-list cache and the public-key cache.

 A signing request first asks `authorizeChain`, which may answer from the cache, or read the list from the plugin and
 write it to the cache some time later; it then has the plugin sign, obtains the public key (from a cache that is
 never invalidated, or by a read it caches later) and assembles the result. All of this interleaves with the plugin's
 own steps, with other readers of the public key, and with the invalidation at the end of a PATCH, which may come at
 any time here. Clock readings are arbitrary.
 */
module Gateway {
  import opened Text
  import opened Bytes
  import opened Chains
  import opened Locking
  import opened Runs

  /** The two integers of a signature. */
  datatype Parts = Parts(r: nat, s: nat)

  /** What the gateway reads off a stored entry, and how it assembles a result. */
  datatype View<!V> = View(
    list: V -> Parse,                                          // the canonicalised allow-list
    sign: (V, string, Bytes) -> Option<Parts>,                 // the plugin's authorisation and signature
    pubkey: V -> Option<Bytes>,                                // the uncompressed public key
    assemble: (string, Bytes, Parts, Bytes) -> Option<Bytes>   // chain, digest, parts and public key to the result
  )

  datatype Verdict = Allow | Deny | Missing | Forbidden | Unavailable

  datatype Phase =
    | Checking
    | Fetching
    | Fetched(list: Parse)
    | Refused
    | Cleared
    | Signed(parts: Parts)
    | PubRead(parts: Parts, pub: Bytes)
    | Ready(parts: Parts, pub: Bytes)
    | Returned(result: Bytes, pub: Bytes)
    | Failed

  /** `verdict` is what authorizeChain returned; `signer` is the entry and the parts of the plugin's signature. */
  datatype SignCall<V> = SignCall(
    path: string,
    chain: string,
    digest: Bytes,
    phase: Phase,
    verdict: Option<Verdict>,
    signer: Option<(V, Parts)>
  )

  datatype Cached = Cached(chains: seq<string>, at: int)

  datatype GState<Q, V, R> = GState(
    plugin: State<Q, V, R>,
    cache: map<string, Cached>,
    pubs: map<string, Bytes>,
    inflight: set<(string, Bytes)>,
    calls: map<nat, SignCall<V>>
  )

  datatype GStep<Q> =
    | PluginStep(step: Step<Q>)
    | Begin(id: nat, path: string, chain: string, digest: Bytes)
    | Check(id: nat, now: int)
    | Fetch(id: nat)
    | FetchFails(id: nat, verdict: Verdict)
    | Conclude(id: nat, now: int)
    | Sign(id: nat)
    | SignFails(id: nat)
    | CachedPub(id: nat)
    | ReadPub(id: nat)
    | KeepPub(id: nat)
    | Assemble(id: nat)
    | OtherRead(path: string)
    | OtherKeep(path: string, pub: Bytes)
    | Invalidate(path: string)

  /** `authorizeChain` from a list in hand. */
  function Judge(list: seq<string>, chain: string): Verdict {
    if chain in list then Allow else Deny
  }

  /** The verdict of a direct look at the store. */
  function Direct<V>(view: View<V>, store: map<string, V>, path: string, chain: string): Verdict {
    if path !in store then Missing
    else
      match view.list(store[path])
      case Rejected => Unavailable
      case Parsed(list) => Judge(list, chain)
  }

  /** The cache answers only with a fresh list that allows the chain. */
  predicate CacheAllows(cache: map<string, Cached>, ttl: int, path: string, chain: string, now: int) {
    path in cache && now - cache[path].at <= ttl && chain in cache[path].chains
  }

  predicate GEnabled<Q, V, R>(s: GState<Q, V, R>, step: GStep<Q>) {
    match step
    case PluginStep(p) => Enabled(s.plugin, p)
    case Begin(id, _, _, _) => id !in s.calls
    case Check(id, _) => id in s.calls && s.calls[id].phase.Checking?
    case Fetch(id) => id in s.calls && s.calls[id].phase.Fetching?
    case FetchFails(id, v) => id in s.calls && s.calls[id].phase.Fetching? && (v.Forbidden? || v.Unavailable?)
    case Conclude(id, _) => id in s.calls && s.calls[id].phase.Fetched?
    case Sign(id) => id in s.calls && s.calls[id].phase.Cleared?
    case SignFails(id) => id in s.calls && s.calls[id].phase.Cleared?
    case CachedPub(id) => id in s.calls && s.calls[id].phase.Signed? && s.calls[id].path in s.pubs
    case ReadPub(id) => id in s.calls && s.calls[id].phase.Signed?
    case KeepPub(id) => id in s.calls && s.calls[id].phase.PubRead?
    case Assemble(id) => id in s.calls && s.calls[id].phase.Ready?
    case OtherRead(_) => true
    case OtherKeep(path, pub) => (path, pub) in s.inflight
    case Invalidate(_) => true
  }

  function Advance<Q, V, R>(s: GState<Q, V, R>, id: nat, call: SignCall<V>): GState<Q, V, R> {
    s.(calls := s.calls[id := call])
  }

  /** authorizeChain returns: an allow goes on to sign, anything else ends the request. */
  function Ruled<V>(call: SignCall<V>, v: Verdict): SignCall<V> {
    call.(verdict := Some(v), phase := if v.Allow? then Cleared else Refused)
  }

  function ReadKey<V>(view: View<V>, store: map<string, V>, path: string): Option<Bytes> {
    if path in store then view.pubkey(store[path]) else None
  }

  /** A step of a signing call itself, as opposed to its start and to what others do. */
  predicate OwnStep<Q>(step: GStep<Q>) {
    !step.PluginStep? && !step.Begin? && !step.OtherRead? && !step.OtherKeep? && !step.Invalidate?
  }

  /** The new record of a call after its own step. */
  function NextCall<Q, V, R>(view: View<V>, ttl: int, s: GState<Q, V, R>, id: nat, step: GStep<Q>): SignCall<V>
    requires id in s.calls && GEnabled(s, step)
    requires OwnStep(step) && step.id == id
  {
    var call := s.calls[id];
    var store := s.plugin.store;
    match step
    case Check(_, now) =>
      if CacheAllows(s.cache, ttl, call.path, call.chain, now) then Ruled(call, Allow) else call.(phase := Fetching)
    case Fetch(_) =>
      if call.path !in store then Ruled(call, Missing) else call.(phase := Fetched(view.list(store[call.path])))
    case FetchFails(_, v) => Ruled(call, v)
    case Conclude(_, _) =>
      (match call.phase.list
       case Rejected => Ruled(call, Unavailable)
       case Parsed(list) => Ruled(call, Judge(list, call.chain)))
    case Sign(_) =>
      var parts := if call.path in store then view.sign(store[call.path], call.chain, call.digest) else None;
      if parts.None? then call.(phase := Failed)
      else call.(phase := Signed(parts.value), signer := Some((store[call.path], parts.value)))
    case CachedPub(_) => call.(phase := Ready(call.phase.parts, s.pubs[call.path]))
    case ReadPub(_) =>
      (match ReadKey(view, store, call.path)
       case None => call.(phase := Failed)
       case Some(pub) => call.(phase := PubRead(call.phase.parts, pub)))
    case KeepPub(_) => call.(phase := Ready(call.phase.parts, call.phase.pub))
    case Assemble(_) =>
      (match view.assemble(call.chain, call.digest, call.phase.parts, call.phase.pub)
       case None => call.(phase := Failed)
       case Some(result) => call.(phase := Returned(result, call.phase.pub)))
    case _ => call.(phase := Failed)
  }

  function GApply<Q, V, R>(
    h: Handler<Q, V, R>, view: View<V>, ttl: int, s: GState<Q, V, R>, step: GStep<Q>): GState<Q, V, R>
    requires GEnabled(s, step)
  {
    match step
    case PluginStep(p) => s.(plugin := Apply(h, s.plugin, p))
    case Begin(id, path, chain, digest) => Advance(s, id, SignCall(path, chain, digest, Checking, None, None))
    case OtherRead(path) =>
      var pub := ReadKey(view, s.plugin.store, path);
      if pub.Some? then s.(inflight := s.inflight + {(path, pub.value)}) else s
    case OtherKeep(path, pub) => s.(pubs := s.pubs[path := pub])
    case Invalidate(path) => s.(cache := s.cache - {path})
    case Conclude(id, now) =>
      var s' := Advance(s, id, NextCall(view, ttl, s, id, step));
      if s.calls[id].phase.list.Parsed?
      then s'.(cache := s.cache[s.calls[id].path := Cached(s.calls[id].phase.list.chains, now)])
      else s'
    case KeepPub(id) =>
      Advance(s, id, NextCall(view, ttl, s, id, step)).(pubs := s.pubs[s.calls[id].path := s.calls[id].phase.pub])
    case _ => Advance(s, step.id, NextCall(view, ttl, s, step.id, step))
  }

  ghost predicate GInit<Q, V, R>(store: map<string, V>, s: GState<Q, V, R>) {
    Init(store, s.plugin) && s.cache == map[] && s.pubs == map[] && s.inflight == {} && s.calls == map[]
  }

  datatype GRun<Q, V, R> = GRun(states: seq<GState<Q, V, R>>, steps: seq<GStep<Q>>)

  /** The i-th step leads from the i-th state to the next. */
  ghost predicate Linked<Q, V, R>(h: Handler<Q, V, R>, view: View<V>, ttl: int, run: GRun<Q, V, R>, i: nat) {
    && i < |run.steps| && |run.states| == |run.steps| + 1
    && GEnabled(run.states[i], run.steps[i]) && run.states[i + 1] == GApply(h, view, ttl, run.states[i], run.steps[i])
  }

  ghost predicate IsGRun<Q, V, R>(
    h: Handler<Q, V, R>, view: View<V>, ttl: int, store: map<string, V>, run: GRun<Q, V, R>) {
    && |run.states| == |run.steps| + 1
    && GInit(store, run.states[0])
    && forall i :: 0 <= i < |run.steps| ==> Linked(h, view, ttl, run, i)
  }

  predicate Deletes<Q>(step: GStep<Q>, p: string) { step.PluginStep? && step.step.Delete? && step.step.name == p }

  // ------------------------------------------------------------------ what a path's caches must agree with

  /** The list stays readable and loses no chain, and the public key stays. */
  predicate ReadsMore<V>(view: View<V>, e: V, e': V) {
    && (view.list(e).Parsed? ==>
          view.list(e').Parsed? && Elements(view.list(e).chains) <= Elements(view.list(e').chains))
    && view.pubkey(e) == view.pubkey(e')
  }

  /** Growing into a sound entry keeps the list readable, loses no chain of it and keeps its public key. */
  ghost predicate ViewLawful<V(!new)>(view: View<V>, k: Keeper<V>) {
    forall n: string, e: V, e': V :: k.ok(n, e') && k.grows(e, e') ==> ReadsMore(view, e, e')
  }

  /** Every chain of the list is in the stored one. */
  predicate Within<V>(view: View<V>, store: map<string, V>, path: string, list: seq<string>) {
    list != [] ==>
      path in store && view.list(store[path]).Parsed? && Elements(list) <= Elements(view.list(store[path]).chains)
  }

  /** The public key is the stored one. */
  predicate Current<V>(view: View<V>, store: map<string, V>, path: string, pub: Bytes) {
    path in store && view.pubkey(store[path]) == Some(pub)
  }

  /** The entry, if there was one, is still there, sound, and grown out of what it was. */
  ghost predicate Grown<V>(k: Keeper<V>, store: map<string, V>, store': map<string, V>, p: string) {
    p in store ==> p in store' && k.ok(p, store'[p]) && k.grows(store[p], store'[p])
  }

  lemma PluginStepGrows<Q(!new), V(!new), R>(
    h: Handler<Q, V, R>, k: Keeper<V>, view: View<V>, ttl: int, s: GState<Q, V, R>, step: GStep<Q>, p: string)
    requires Lawful(h, k) && LockInv(h, s.plugin) && GrowInv(h, k, s.plugin)
    requires GEnabled(s, step) && step.PluginStep? && !Deletes(step, p)
    ensures var s' := GApply(h, view, ttl, s, step);
            s' == s.(plugin := s'.plugin) && Grown(k, s.plugin.store, s'.plugin.store, p)
  {
    StepGrows(h, k, s.plugin, step.step);
  }

  // ------------------------------------------------------------------ lists

  predicate ListOk<V>(view: View<V>, store: map<string, V>, call: SignCall<V>) {
    call.phase.Fetched? && call.phase.list.Parsed? ==> Within(view, store, call.path, call.phase.list.chains)
  }

  /** Every list cached or in flight for the path is within the stored one. */
  ghost predicate ListsOk<Q, V, R>(view: View<V>, s: GState<Q, V, R>, p: string) {
    && (p in s.cache ==> Within(view, s.plugin.store, p, s.cache[p].chains))
    && (forall id :: id in s.calls && s.calls[id].path == p ==> ListOk(view, s.plugin.store, s.calls[id]))
  }

  predicate CarriesList<V>(call: SignCall<V>) {
    call.phase.Fetched? && call.phase.list.Parsed? && call.phase.list.chains != []
  }

  /** No list that names a chain is cached or in flight for the path. */
  ghost predicate NoList<Q, V, R>(s: GState<Q, V, R>, p: string) {
    && (p in s.cache ==> s.cache[p].chains == [])
    && (forall id :: id in s.calls && s.calls[id].path == p ==> !CarriesList(s.calls[id]))
  }

  lemma ListsGrown<Q, V(!new), R>(view: View<V>, k: Keeper<V>, s: GState<Q, V, R>, s': GState<Q, V, R>, p: string)
    requires ViewLawful(view, k) && Grown(k, s.plugin.store, s'.plugin.store, p) && ListsOk(view, s, p)
    requires s' == s.(plugin := s'.plugin)
    ensures ListsOk(view, s', p)
  {
    forall id | id in s'.calls && s'.calls[id].path == p ensures ListOk(view, s'.plugin.store, s'.calls[id]) {
      assert ListOk(view, s.plugin.store, s.calls[id]);
    }
  }

  /** A deletion leaves them so exactly when there is no list about. */
  lemma DeletionAndLists<Q, V, R>(
    h: Handler<Q, V, R>, view: View<V>, ttl: int, s: GState<Q, V, R>, step: GStep<Q>, p: string)
    requires ListsOk(view, s, p) && GEnabled(s, step) && Deletes(step, p)
    ensures ListsOk(view, GApply(h, view, ttl, s, step), p) <==> NoList(s, p)
  {
    var s' := GApply(h, view, ttl, s, step);
    assert p !in s'.plugin.store && s' == s.(plugin := s'.plugin);
    if ListsOk(view, s', p) {
      forall id | id in s.calls && s.calls[id].path == p ensures !CarriesList(s.calls[id]) {
        assert ListOk(view, s'.plugin.store, s'.calls[id]);
      }
    }
  }

  lemma NextListOk<Q, V, R>(view: View<V>, ttl: int, s: GState<Q, V, R>, step: GStep<Q>)
    requires OwnStep(step) && GEnabled(s, step) && ListsOk(view, s, s.calls[step.id].path)
    ensures ListOk(view, s.plugin.store, NextCall(view, ttl, s, step.id, step))
    ensures NextCall(view, ttl, s, step.id, step).path == s.calls[step.id].path
  {
    assert ListOk(view, s.plugin.store, s.calls[step.id]);
  }

  lemma AdvanceKeepsLists<Q, V, R>(view: View<V>, s: GState<Q, V, R>, id: nat, call: SignCall<V>, p: string)
    requires ListsOk(view, s, p) && (call.path == p ==> ListOk(view, s.plugin.store, call))
    ensures ListsOk(view, Advance(s, id, call), p)
  {}

  lemma OwnStepKeepsLists<Q, V, R>(
    h: Handler<Q, V, R>, view: View<V>, ttl: int, s: GState<Q, V, R>, step: GStep<Q>, p: string)
    requires ListsOk(view, s, p) && GEnabled(s, step) && OwnStep(step)
    ensures ListsOk(view, GApply(h, view, ttl, s, step), p)
  {
    var call := NextCall(view, ttl, s, step.id, step);
    if s.calls[step.id].path == p { NextListOk(view, ttl, s, step); }
    AdvanceKeepsLists(view, s, step.id, call, p);
    assert s.calls[step.id].path == p ==> ListOk(view, s.plugin.store, s.calls[step.id]);
  }

  lemma CallStepKeepsLists<Q, V, R>(
    h: Handler<Q, V, R>, view: View<V>, ttl: int, s: GState<Q, V, R>, step: GStep<Q>, p: string)
    requires ListsOk(view, s, p) && GEnabled(s, step) && !step.PluginStep?
    ensures ListsOk(view, GApply(h, view, ttl, s, step), p)
  {
    if OwnStep(step) {
      OwnStepKeepsLists(h, view, ttl, s, step, p);
    } else if step.Begin? {
      AdvanceKeepsLists(view, s, step.id, SignCall(step.path, step.chain, step.digest, Checking, None, None), p);
    }
  }

  // ------------------------------------------------------------------ public keys

  /** A public key that a call has read and has yet to keep is the stored one. */
  predicate ReadOk<V>(view: View<V>, store: map<string, V>, call: SignCall<V>) {
    call.phase.PubRead? ==> Current(view, store, call.path, call.phase.pub)
  }

  /** Until it has its public key, a signed call depends on the stored one; then the key it has is the signer's. */
  predicate SignerOk<V>(view: View<V>, store: map<string, V>, call: SignCall<V>) {
    && (call.phase.Signed? || call.phase.PubRead? ==>
          && call.signer.Some? && call.path in store
          && view.pubkey(call.signer.value.0) == view.pubkey(store[call.path]))
    && (call.phase.Ready? || call.phase.Returned? ==>
          call.signer.Some? && view.pubkey(call.signer.value.0) == Some(call.phase.pub))
  }

  /** Every public key cached or in flight for the path is the stored one, and what the call has signed goes with it. */
  ghost predicate KeysOk<Q, V, R>(view: View<V>, s: GState<Q, V, R>, p: string, id: nat) {
    && (p in s.pubs ==> Current(view, s.plugin.store, p, s.pubs[p]))
    && (forall pub :: (p, pub) in s.inflight ==> Current(view, s.plugin.store, p, pub))
    && (forall n :: n in s.calls && s.calls[n].path == p ==> ReadOk(view, s.plugin.store, s.calls[n]))
    && (id in s.calls && s.calls[id].path == p ==> SignerOk(view, s.plugin.store, s.calls[id]))
  }

  /** No public key is cached or in flight for the path, and the call has not signed without having one yet. */
  ghost predicate NoKey<Q, V, R>(s: GState<Q, V, R>, p: string, id: nat) {
    && p !in s.pubs
    && (forall pub :: (p, pub) !in s.inflight)
    && (forall n :: n in s.calls && s.calls[n].path == p ==> !s.calls[n].phase.PubRead?)
    && (id in s.calls && s.calls[id].path == p ==> !s.calls[id].phase.Signed?)
  }

  lemma KeysGrown<Q, V(!new), R>(
    view: View<V>, k: Keeper<V>, s: GState<Q, V, R>, s': GState<Q, V, R>, p: string, id: nat)
    requires ViewLawful(view, k) && Grown(k, s.plugin.store, s'.plugin.store, p) && KeysOk(view, s, p, id)
    requires s' == s.(plugin := s'.plugin)
    ensures KeysOk(view, s', p, id)
  {
    forall n | n in s'.calls && s'.calls[n].path == p ensures ReadOk(view, s'.plugin.store, s'.calls[n]) {
      assert ReadOk(view, s.plugin.store, s.calls[n]);
    }
  }

  /** A deletion leaves them so exactly when there is no key about. */
  lemma DeletionAndKeys<Q, V, R>(
    h: Handler<Q, V, R>, view: View<V>, ttl: int, s: GState<Q, V, R>, step: GStep<Q>, p: string, id: nat)
    requires KeysOk(view, s, p, id) && GEnabled(s, step) && Deletes(step, p)
    ensures KeysOk(view, GApply(h, view, ttl, s, step), p, id) <==> NoKey(s, p, id)
  {
    var s' := GApply(h, view, ttl, s, step);
    assert p !in s'.plugin.store && s' == s.(plugin := s'.plugin);
    if KeysOk(view, s', p, id) {
      forall n | n in s.calls && s.calls[n].path == p ensures !s.calls[n].phase.PubRead? {
        assert ReadOk(view, s'.plugin.store, s'.calls[n]);
      }
    }
  }

  lemma NextReadOk<Q, V, R>(view: View<V>, ttl: int, s: GState<Q, V, R>, step: GStep<Q>, id: nat)
    requires OwnStep(step) && GEnabled(s, step) && KeysOk(view, s, s.calls[step.id].path, id)
    ensures ReadOk(view, s.plugin.store, NextCall(view, ttl, s, step.id, step))
    ensures step.id == id ==> SignerOk(view, s.plugin.store, NextCall(view, ttl, s, step.id, step))
    ensures NextCall(view, ttl, s, step.id, step).path == s.calls[step.id].path
  {
    assert ReadOk(view, s.plugin.store, s.calls[step.id]);
  }

  lemma AdvanceKeepsKeys<Q, V, R>(view: View<V>, s: GState<Q, V, R>, n: nat, call: SignCall<V>, p: string, id: nat)
    requires KeysOk(view, s, p, id) && (call.path == p ==> ReadOk(view, s.plugin.store, call))
    requires call.path == p && n == id ==> SignerOk(view, s.plugin.store, call)
    ensures KeysOk(view, Advance(s, n, call), p, id)
  {}

  lemma OwnStepKeepsKeys<Q, V, R>(
    h: Handler<Q, V, R>, view: View<V>, ttl: int, s: GState<Q, V, R>, step: GStep<Q>, p: string, id: nat)
    requires KeysOk(view, s, p, id) && GEnabled(s, step) && OwnStep(step)
    ensures KeysOk(view, GApply(h, view, ttl, s, step), p, id)
  {
    var call := NextCall(view, ttl, s, step.id, step);
    if s.calls[step.id].path == p { NextReadOk(view, ttl, s, step, id); }
    AdvanceKeepsKeys(view, s, step.id, call, p, id);
    assert s.calls[step.id].path == p ==> ReadOk(view, s.plugin.store, s.calls[step.id]);
  }

  lemma CallStepKeepsKeys<Q, V, R>(
    h: Handler<Q, V, R>, view: View<V>, ttl: int, s: GState<Q, V, R>, step: GStep<Q>, p: string, id: nat)
    requires KeysOk(view, s, p, id) && GEnabled(s, step) && !step.PluginStep?
    ensures KeysOk(view, GApply(h, view, ttl, s, step), p, id)
  {
    if OwnStep(step) {
      OwnStepKeepsKeys(h, view, ttl, s, step, p, id);
    } else if step.Begin? {
      var call := SignCall(step.path, step.chain, step.digest, Checking, None, None);
      AdvanceKeepsKeys(view, s, step.id, call, p, id);
    }
  }
}
