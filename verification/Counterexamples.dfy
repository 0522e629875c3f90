/**
 Runs of the gateway in which a deletion meets what the theorems say it must not meet. From any state in which a list
 or a public key is about, a deletion goes on to a wrong allow, or to a wrong public key.
 */
module Counterexamples {
  import opened Text
  import opened Bytes
  import opened Chains
  import opened Plugin
  import opened Locking
  import opened PluginRuns
  import opened Gateway
  import opened GatewayRuns
  import opened Signing
  import opened KeyGateway
  import KeyPath

  // ------------------------------------------------------------------ building runs

  function Final<Q, V, R>(run: GRun<Q, V, R>): GState<Q, V, R>
    requires run.states != []
  {
    run.states[|run.states| - 1]
  }

  ghost function Begun<Q, V, R>(store: map<string, V>): GRun<Q, V, R> {
    GRun([GState(State(store, map[], 0, map[], map[], [], []), map[], map[], {}, map[])], [])
  }

  /** The run with one more step. */
  lemma Extend<Q, V, R>(
    h: Handler<Q, V, R>, view: View<V>, ttl: int, store: map<string, V>, run: GRun<Q, V, R>, step: GStep<Q>)
    returns (longer: GRun<Q, V, R>)
    requires IsGRun(h, view, ttl, store, run) && GEnabled(Final(run), step)
    ensures IsGRun(h, view, ttl, store, longer) && longer.steps == run.steps + [step]
    ensures Final(longer) == GApply(h, view, ttl, Final(run), step) && longer.states == run.states + [Final(longer)]
  {
    longer := GRun(run.states + [GApply(h, view, ttl, Final(run), step)], run.steps + [step]);
    forall i | 0 <= i < |longer.steps| ensures Linked(h, view, ttl, longer, i) {
      if i < |run.steps| { assert Linked(h, view, ttl, run, i); }
    }
  }

  // ------------------------------------------------------------------ a stale allow

  /** No request of this number has begun. */
  ghost predicate Unheard<Q, V, R>(run: GRun<Q, V, R>, id: nat) {
    forall i :: 0 <= i < |run.states| ==> id !in run.states[i].calls
  }

  /** A request that the cache does not answer. */
  lemma Asked<Q, V, R>(
    h: Handler<Q, V, R>, view: View<V>, ttl: int, store: map<string, V>, run: GRun<Q, V, R>,
    id: nat, path: string, chain: string, digest: Bytes, now: int) returns (longer: GRun<Q, V, R>)
    requires IsGRun(h, view, ttl, store, run) && id !in Final(run).calls && path !in Final(run).cache
    ensures IsGRun(h, view, ttl, store, longer) && run.states <= longer.states
    ensures longer.steps == run.steps + [Begin(id, path, chain, digest), Check(id, now)]
    ensures Final(longer) == Advance(Final(run), id, SignCall(path, chain, digest, Fetching, None, None))
    ensures forall other :: other != id && Unheard(run, other) ==> Unheard(longer, other)
  {
    longer := Extend(h, view, ttl, store, run, Begin(id, path, chain, digest));
    longer := Extend(h, view, ttl, store, longer, Check(id, now));
  }

  /** An authorised request up to its verdict, with the list read and cached. */
  lemma Authorised<Q, V, R>(
    h: Handler<Q, V, R>, view: View<V>, ttl: int, store: map<string, V>, run: GRun<Q, V, R>,
    id: nat, path: string, chain: string, digest: Bytes, now: int) returns (longer: GRun<Q, V, R>)
    requires IsGRun(h, view, ttl, store, run) && id !in Final(run).calls && path !in Final(run).cache
    requires path in Final(run).plugin.store && view.list(Final(run).plugin.store[path]).Parsed?
    requires chain in view.list(Final(run).plugin.store[path]).chains
    ensures IsGRun(h, view, ttl, store, longer) && run.states <= longer.states
    ensures longer.steps == run.steps + [Begin(id, path, chain, digest), Check(id, now), Fetch(id), Conclude(id, now)]
    ensures var s := Final(run);
            Final(longer) == s.(
              cache := s.cache[path := Cached(view.list(s.plugin.store[path]).chains, now)],
              calls := s.calls[id := SignCall(path, chain, digest, Cleared, Some(Allow), None)])
    ensures forall other :: other != id && Unheard(run, other) ==> Unheard(longer, other)
  {
    longer := Asked(h, view, ttl, store, run, id, path, chain, digest, now);
    longer := Extend(h, view, ttl, store, longer, Fetch(id));
    longer := Extend(h, view, ttl, store, longer, Conclude(id, now));
    var call := SignCall(path, chain, digest, Cleared, Some(Allow), None);
    assert Final(longer).calls == Final(run).calls[id := call];
  }

  /** The run is continued. */
  ghost predicate Continues<Q, V, R>(
    h: Handler<Q, V, R>, view: View<V>, ttl: int, store: map<string, V>, run: GRun<Q, V, R>, longer: GRun<Q, V, R>) {
    IsGRun(h, view, ttl, store, longer) && run.steps <= longer.steps && run.states <= longer.states
  }

  /** The first new step deletes the path. */
  predicate StartsWithDeletion<Q, V, R>(run: GRun<Q, V, R>, longer: GRun<Q, V, R>, p: string) {
    |longer.steps| > |run.steps| && Deletes(longer.steps[|run.steps|], p)
  }

  /** The request is allowed although the key is missing at every moment of it. */
  ghost predicate AllowedInVain<Q, V, R>(view: View<V>, run: GRun<Q, V, R>, id: nat, p: string)
    requires run.states != []
  {
    && id in Final(run).calls && Final(run).calls[id].path == p && Final(run).calls[id].verdict == Some(Allow)
    && forall i :: 0 <= i < |run.states| && id in run.states[i].calls ==>
         Direct(view, run.states[i].plugin.store, p, Final(run).calls[id].chain) == Missing
  }

  lemma AllowedFromCache<Q, V, R>(
    h: Handler<Q, V, R>, view: View<V>, ttl: int, store: map<string, V>, run: GRun<Q, V, R>, p: string,
    id: nat, digest: Bytes) returns (longer: GRun<Q, V, R>)
    requires IsGRun(h, view, ttl, store, run) && Unheard(run, id) && p !in Final(run).plugin.store
    requires p in Final(run).cache && Final(run).cache[p].chains != []
    ensures Continues(h, view, ttl, store, run, longer) && AllowedInVain(view, longer, id, p)
  {
    var cached := Final(run).cache[p];
    longer := Extend(h, view, ttl, store, run, Begin(id, p, cached.chains[0], digest));
    longer := Extend(h, view, ttl, store, longer, Check(id, cached.at + ttl));
  }

  /** A list in flight gets into the cache. */
  lemma ListCached<Q, V, R>(
    h: Handler<Q, V, R>, view: View<V>, ttl: int, store: map<string, V>, run: GRun<Q, V, R>, p: string)
    returns (longer: GRun<Q, V, R>)
    requires IsGRun(h, view, ttl, store, run) && !NoList(Final(run), p)
    ensures Continues(h, view, ttl, store, run, longer)
    ensures Final(longer).plugin == Final(run).plugin && p in Final(longer).cache && Final(longer).cache[p].chains != []
    ensures forall id :: Unheard(run, id) ==> Unheard(longer, id)
  {
    var s := Final(run);
    longer := run;
    if p !in s.cache || s.cache[p].chains == [] {
      var n :| n in s.calls && s.calls[n].path == p && CarriesList(s.calls[n]);
      longer := Extend(h, view, ttl, store, run, Conclude(n, 0));
    }
  }

  /**
   The converse of the linearizability of allows. Wherever a list that names a chain is cached or in flight for a path,
   a deletion of the path can be followed by a request that is allowed although the key is missing throughout it.
   */
  lemma DeletionMeetsList<Q, V, R>(
    h: Handler<Q, V, R>, view: View<V>, ttl: int, store: map<string, V>, run: GRun<Q, V, R>, p: string,
    id: nat, digest: Bytes) returns (longer: GRun<Q, V, R>)
    requires IsGRun(h, view, ttl, store, run) && Unheard(run, id) && p != "" && !NoList(Final(run), p)
    ensures Continues(h, view, ttl, store, run, longer) && StartsWithDeletion(run, longer, p)
    ensures AllowedInVain(view, longer, id, p)
  {
    longer := Extend(h, view, ttl, store, run, PluginStep(Delete(p)));
    assert Unheard(longer, id);
    longer := ListCached(h, view, ttl, store, longer, p);
    longer := AllowedFromCache(h, view, ttl, store, longer, p, id, digest);
  }

  /**
   A run in which a fresh cached list outlives its key: the second request is allowed although the key is missing at
   every moment of it, and the plugin then refuses to sign.
   */
  lemma StaleAllowFailsToSign<Q, V, R>(
    h: Handler<Q, V, R>, view: View<V>, ttl: nat, store: map<string, V>, path: string, chain: string,
    digest: Bytes, now: int)
    returns (run: GRun<Q, V, R>)
    requires path != "" && path in store && view.list(store[path]).Parsed? && chain in view.list(store[path]).chains
    ensures IsGRun(h, view, ttl, store, run)
    ensures run.steps == [Begin(0, path, chain, digest), Check(0, now), Fetch(0), Conclude(0, now),
                          PluginStep(Delete(path)), Begin(1, path, chain, digest), Check(1, now), Sign(1)]
    ensures 1 in Final(run).calls && Final(run).calls[1].verdict == Some(Allow) && Final(run).calls[1].phase.Failed?
    ensures forall i :: 0 <= i < |run.states| && 1 in run.states[i].calls ==>
              Direct(view, run.states[i].plugin.store, path, chain) == Missing
  {
    run := Authorised(h, view, ttl, store, Begun(store), 0, path, chain, digest, now);
    assert Unheard(run, 1);
    run := Extend(h, view, ttl, store, run, PluginStep(Delete(path)));
    run := Extend(h, view, ttl, store, run, Begin(1, path, chain, digest));
    run := Extend(h, view, ttl, store, run, Check(1, now));
    run := Extend(h, view, ttl, store, run, Sign(1));
  }

  // ------------------------------------------------------------------ a key that is deleted and created again

  lemma {:induction false} LocksAt<Q, V, R>(
    h: Handler<Q, V, R>, view: View<V>, ttl: int, store: map<string, V>, run: GRun<Q, V, R>, i: nat)
    requires IsGRun(h, view, ttl, store, run) && i < |run.states|
    ensures LockInv(h, run.states[i].plugin)
  {
    if i > 0 {
      assert Linked(h, view, ttl, run, i - 1);
      LocksAt(h, view, ttl, store, run, i - 1);
      if run.steps[i - 1].PluginStep? { LockInvKept(h, run.states[i - 1].plugin, run.steps[i - 1].step); }
    }
  }

  predicate Free<Q, V, R>(s: State<Q, V, R>, p: string) { p in s.locks ==> s.locks[p] !in s.owner }

  /** The plugin goes on, nothing else does, and no call arrives. */
  ghost predicate PluginGoesOn<Q, V, R>(
    h: Handler<Q, V, R>, view: View<V>, ttl: int, store: map<string, V>, run: GRun<Q, V, R>, longer: GRun<Q, V, R>)
    requires run.states != []
  {
    && Continues(h, view, ttl, store, run, longer)
    && Final(longer) == Final(run).(plugin := Final(longer).plugin)
    && Final(longer).plugin.threads.Keys == Final(run).plugin.threads.Keys
  }

  /** The thread is at the point of unlocking, with the mutex it had. */
  predicate Finishes<Q, V, R>(s: State<Q, V, R>, s': State<Q, V, R>, u: Tid)
    requires u in s.threads && Holds(s.threads[u].phase)
  {
    && s'.locks == s.locks && u in s'.threads && s'.threads[u].phase.Leaving?
    && s'.threads[u].phase.mutex == s.threads[u].phase.mutex
  }

  lemma SaverFinishes<Q, V, R>(
    h: Handler<Q, V, R>, view: View<V>, ttl: int, store: map<string, V>, run: GRun<Q, V, R>, u: Tid)
    returns (longer: GRun<Q, V, R>)
    requires IsGRun(h, view, ttl, store, run)
    requires u in Final(run).plugin.threads && Final(run).plugin.threads[u].phase.Loaded?
    ensures PluginGoesOn(h, view, ttl, store, run, longer) && Finishes(Final(run).plugin, Final(longer).plugin, u)
  {
    longer := Extend(h, view, ttl, store, run, PluginStep(Save(u)));
  }

  lemma LoaderFinishes<Q, V, R>(
    h: Handler<Q, V, R>, view: View<V>, ttl: int, store: map<string, V>, run: GRun<Q, V, R>, u: Tid)
    returns (longer: GRun<Q, V, R>)
    requires IsGRun(h, view, ttl, store, run)
    requires u in Final(run).plugin.threads && Final(run).plugin.threads[u].phase.Entered?
    ensures PluginGoesOn(h, view, ttl, store, run, longer) && Finishes(Final(run).plugin, Final(longer).plugin, u)
  {
    longer := Extend(h, view, ttl, store, run, PluginStep(Load(u)));
    if Final(longer).plugin.threads[u].phase.Loaded? { longer := SaverFinishes(h, view, ttl, store, longer, u); }
  }

  /** Whoever is inside its critical section comes to the point of unlocking. */
  lemma Finished<Q, V, R>(
    h: Handler<Q, V, R>, view: View<V>, ttl: int, store: map<string, V>, run: GRun<Q, V, R>, u: Tid)
    returns (longer: GRun<Q, V, R>)
    requires IsGRun(h, view, ttl, store, run)
    requires u in Final(run).plugin.threads && Holds(Final(run).plugin.threads[u].phase)
    ensures PluginGoesOn(h, view, ttl, store, run, longer) && Finishes(Final(run).plugin, Final(longer).plugin, u)
  {
    var p := Final(run).plugin.threads[u].phase;
    if p.Entered? {
      longer := LoaderFinishes(h, view, ttl, store, run, u);
    } else if p.Loaded? {
      longer := SaverFinishes(h, view, ttl, store, run, u);
    } else {
      longer := run;
    }
  }

  /** Whoever holds the lock of the path leaves. */
  lemma Vacated<Q, V, R>(
    h: Handler<Q, V, R>, view: View<V>, ttl: int, store: map<string, V>, run: GRun<Q, V, R>, p: string)
    returns (longer: GRun<Q, V, R>)
    requires IsGRun(h, view, ttl, store, run)
    ensures PluginGoesOn(h, view, ttl, store, run, longer) && Free(Final(longer).plugin, p)
  {
    var s := Final(run).plugin;
    LocksAt(h, view, ttl, store, run, |run.states| - 1);
    longer := run;
    if p in s.locks && s.locks[p] in s.owner {
      var u := s.owner[s.locks[p]];
      assert OwnerOk(s, s.locks[p]);
      longer := Finished(h, view, ttl, store, run, u);
      longer := Extend(h, view, ttl, store, longer, PluginStep(Release(u)));
    }
  }

  lemma MintedIsFree<Q, V, R>(h: Handler<Q, V, R>, s: State<Q, V, R>)
    requires LockInv(h, s)
    ensures s.minted !in s.owner
  {
    forall m | m in s.owner ensures m < s.minted {
      assert OwnerOk(s, m) && ThreadOk(h, s, s.owner[m]);
    }
  }

  /** A newcomer asks for the path, and the lock is free. */
  lemma LockSought<Q, V, R>(
    h: Handler<Q, V, R>, view: View<V>, ttl: int, store: map<string, V>, run: GRun<Q, V, R>, t: Tid, q: Q)
    returns (longer: GRun<Q, V, R>)
    requires IsGRun(h, view, ttl, store, run)
    requires t !in Final(run).plugin.threads && h.screen(q).None? && Free(Final(run).plugin, h.name(q))
    requires Final(run).plugin.minted !in Final(run).plugin.owner
    ensures Continues(h, view, ttl, store, run, longer)
    ensures Final(longer) == Final(run).(plugin := Final(longer).plugin)
    ensures var s' := Final(longer).plugin;
            && s'.store == Final(run).plugin.store && t in s'.threads && s'.threads[t].req == q
            && Enabled(s', Acquire(t))
  {
    longer := Extend(h, view, ttl, store, run, PluginStep(Arrive(t, q)));
    longer := Extend(h, view, ttl, store, longer, PluginStep(TakeMutex(t)));
  }

  /** And locks it. */
  lemma LockTaken<Q, V, R>(
    h: Handler<Q, V, R>, view: View<V>, ttl: int, store: map<string, V>, run: GRun<Q, V, R>, t: Tid, q: Q)
    returns (longer: GRun<Q, V, R>)
    requires IsGRun(h, view, ttl, store, run)
    requires t !in Final(run).plugin.threads && h.screen(q).None? && Free(Final(run).plugin, h.name(q))
    ensures Continues(h, view, ttl, store, run, longer)
    ensures Final(longer) == Final(run).(plugin := Final(longer).plugin)
    ensures var s' := Final(longer).plugin;
            && s'.store == Final(run).plugin.store && t in s'.threads && s'.threads[t].req == q
            && s'.threads[t].phase.Entered?
  {
    assert Final(run).plugin.minted !in Final(run).plugin.owner by {
      LocksAt(h, view, ttl, store, run, |run.states| - 1);
      MintedIsFree(h, Final(run).plugin);
    }
    longer := LockSought(h, view, ttl, store, run, t, q);
    longer := Extend(h, view, ttl, store, longer, PluginStep(Acquire(t)));
  }

  /** A call that finds nothing under its name and stores an entry there. */
  ghost predicate Creates<Q, V, R>(h: Handler<Q, V, R>, q: Q, p: string, v: V) {
    h.name(q) == p && h.screen(q).None? && h.decide(q, None).Put? && h.decide(q, None).value == v
  }

  lemma CreatedAnew<Q, V, R>(
    h: Handler<Q, V, R>, view: View<V>, ttl: int, store: map<string, V>, run: GRun<Q, V, R>, p: string,
    t: Tid, q: Q, v: V) returns (longer: GRun<Q, V, R>)
    requires IsGRun(h, view, ttl, store, run) && t !in Final(run).plugin.threads
    requires Creates(h, q, p, v) && Free(Final(run).plugin, p) && p !in Final(run).plugin.store
    ensures Continues(h, view, ttl, store, run, longer)
    ensures Final(longer) == Final(run).(plugin := Final(longer).plugin)
    ensures p in Final(longer).plugin.store && Final(longer).plugin.store[p] == v
  {
    longer := LockTaken(h, view, ttl, store, run, t, q);
    longer := Extend(h, view, ttl, store, longer, PluginStep(Load(t)));
    longer := Extend(h, view, ttl, store, longer, PluginStep(Save(t)));
  }

  /** From any state the key of a path can be deleted and created again, the gateway's caches staying as they are. */
  lemma Replaced<Q, V, R>(
    h: Handler<Q, V, R>, view: View<V>, ttl: int, store: map<string, V>, run: GRun<Q, V, R>, p: string,
    t: Tid, q: Q, v: V) returns (longer: GRun<Q, V, R>)
    requires IsGRun(h, view, ttl, store, run) && t !in Final(run).plugin.threads
    requires p != "" && Creates(h, q, p, v)
    ensures Continues(h, view, ttl, store, run, longer) && StartsWithDeletion(run, longer, p)
    ensures Final(longer) == Final(run).(plugin := Final(longer).plugin)
    ensures p in Final(longer).plugin.store && Final(longer).plugin.store[p] == v
  {
    longer := Extend(h, view, ttl, store, run, PluginStep(Delete(p)));
    longer := Vacated(h, view, ttl, store, longer, p);
    longer := Extend(h, view, ttl, store, longer, PluginStep(Delete(p)));
    longer := CreatedAnew(h, view, ttl, store, longer, p, t, q, v);
  }

  // ------------------------------------------------------------------ a public key that outlives its private key

  /** The request returns one of the two keys with a signature by the entry of the other. */
  predicate Crossed<V>(view: View<V>, call: SignCall<V>, one: Option<Bytes>, other: Option<Bytes>) {
    && call.phase.Returned? && call.signer.Some?
    && ((Some(call.phase.pub) == one && view.pubkey(call.signer.value.0) == other)
        || (Some(call.phase.pub) == other && view.pubkey(call.signer.value.0) == one))
  }

  /** The entry allows the chain and signs the digest, and assembly with that public key succeeds. */
  predicate Signs<V>(view: View<V>, v: V, chain: string, digest: Bytes, pub: Bytes) {
    && view.list(v).Parsed? && chain in view.list(v).chains && view.sign(v, chain, digest).Some?
    && view.assemble(chain, digest, view.sign(v, chain, digest).value, pub).Some?
  }

  /** A cleared request signs and finds the public key in the cache. */
  lemma ClearedThenCached<Q, V, R>(
    h: Handler<Q, V, R>, view: View<V>, ttl: int, store: map<string, V>, run: GRun<Q, V, R>, n: nat)
    returns (longer: GRun<Q, V, R>)
    requires IsGRun(h, view, ttl, store, run) && n in Final(run).calls && Final(run).calls[n].phase.Cleared?
    requires var s := Final(run);
             var call := s.calls[n];
             && call.path in s.pubs && call.path in s.plugin.store
             && Signs(view, s.plugin.store[call.path], call.chain, call.digest, s.pubs[call.path])
    ensures Continues(h, view, ttl, store, run, longer) && n in Final(longer).calls
    ensures var s := Final(run);
            var p := s.calls[n].path;
            && Final(longer).calls[n].path == p && Final(longer).calls[n].chain == s.calls[n].chain
            && Crossed(view, Final(longer).calls[n], Some(s.pubs[p]), view.pubkey(s.plugin.store[p]))
  {
    longer := Extend(h, view, ttl, store, run, Sign(n));
    longer := Extend(h, view, ttl, store, longer, CachedPub(n));
    longer := Extend(h, view, ttl, store, longer, Assemble(n));
  }

  /** A request is authorised, signs, and finds the public key in the cache. */
  lemma SignedFromCache<Q, V, R>(
    h: Handler<Q, V, R>, view: View<V>, ttl: int, store: map<string, V>, run: GRun<Q, V, R>,
    n: nat, p: string, chain: string, digest: Bytes) returns (longer: GRun<Q, V, R>)
    requires IsGRun(h, view, ttl, store, run) && n !in Final(run).calls
    requires p in Final(run).pubs && p in Final(run).plugin.store
    requires Signs(view, Final(run).plugin.store[p], chain, digest, Final(run).pubs[p])
    ensures Continues(h, view, ttl, store, run, longer) && n in Final(longer).calls
    ensures Final(longer).calls[n].path == p && Final(longer).calls[n].chain == chain
    ensures Crossed(view, Final(longer).calls[n], Some(Final(run).pubs[p]), view.pubkey(Final(run).plugin.store[p]))
  {
    longer := Extend(h, view, ttl, store, run, Invalidate(p));
    longer := Authorised(h, view, ttl, store, longer, n, p, chain, digest, 0);
    longer := ClearedThenCached(h, view, ttl, store, longer, n);
  }

  /** Of the keys about for a path, one gets into the cache. */
  lemma OldKeyCached<Q, V, R>(
    h: Handler<Q, V, R>, view: View<V>, ttl: int, store: map<string, V>, run: GRun<Q, V, R>,
    p: string, was: Option<Bytes>) returns (longer: GRun<Q, V, R>)
    requires IsGRun(h, view, ttl, store, run)
    requires var s := Final(run);
             || (p in s.pubs && Some(s.pubs[p]) == was)
             || (was.Some? && (p, was.value) in s.inflight)
             || (exists m :: m in s.calls && s.calls[m].path == p && s.calls[m].phase.PubRead?
                             && Some(s.calls[m].phase.pub) == was)
    ensures Continues(h, view, ttl, store, run, longer)
    ensures var s, s' := Final(run), Final(longer);
            s'.plugin == s.plugin && s'.calls.Keys == s.calls.Keys && p in s'.pubs && Some(s'.pubs[p]) == was
  {
    var s := Final(run);
    longer := run;
    if p in s.pubs && Some(s.pubs[p]) == was {
    } else if was.Some? && (p, was.value) in s.inflight {
      longer := Extend(h, view, ttl, store, run, OtherKeep(p, was.value));
    } else {
      var m :| m in s.calls && s.calls[m].path == p && s.calls[m].phase.PubRead? && Some(s.calls[m].phase.pub) == was;
      longer := Extend(h, view, ttl, store, run, KeepPub(m));
    }
  }

  /** A request that has signed reads the public key of the entry that is there now. */
  lemma SignedThenReplaced<Q, V, R>(
    h: Handler<Q, V, R>, view: View<V>, ttl: int, store: map<string, V>, run: GRun<Q, V, R>, id: nat)
    returns (longer: GRun<Q, V, R>)
    requires IsGRun(h, view, ttl, store, run) && id in Final(run).calls && Final(run).calls[id].phase.Signed?
    requires var s := Final(run);
             var call := s.calls[id];
             && call.signer.Some? && call.path in s.plugin.store && view.pubkey(s.plugin.store[call.path]).Some?
             && view.assemble(call.chain, call.digest, call.phase.parts,
                              view.pubkey(s.plugin.store[call.path]).value).Some?
    ensures Continues(h, view, ttl, store, run, longer) && id in Final(longer).calls
    ensures var s := Final(run);
            var call := s.calls[id];
            && Final(longer).calls[id].path == call.path && Final(longer).calls[id].chain == call.chain
            && Crossed(view, Final(longer).calls[id], view.pubkey(call.signer.value.0),
                       view.pubkey(s.plugin.store[call.path]))
  {
    longer := Extend(h, view, ttl, store, run, ReadPub(id));
    longer := Extend(h, view, ttl, store, longer, KeepPub(id));
    longer := Extend(h, view, ttl, store, longer, Assemble(id));
  }

  /** The request is on this path, has signed, and has yet to look for its public key. */
  predicate SignedFor<Q, V, R>(s: GState<Q, V, R>, p: string, id: nat) {
    id in s.calls && s.calls[id].path == p && s.calls[id].phase.Signed?
  }

  /** Once the key is created again, a request waits for the public key, and assembly with the new one succeeds. */
  predicate AwaitsNew<Q, V, R>(view: View<V>, s: GState<Q, V, R>, p: string, id: nat, v: V) {
    SignedFor(s, p, id) ==>
      && view.pubkey(v).Some?
      && view.assemble(s.calls[id].chain, s.calls[id].digest, s.calls[id].phase.parts, view.pubkey(v).value).Some?
  }

  /**
   The converse of the return of the signer's key. Wherever a public key is about for a path, or a request on it has
   signed and has no key yet, a deletion of the path can be followed by a new key for it, and by a request that returns
   one of the two public keys with a signature by the other.
   */
  lemma DeletionMeetsKey<Q, V, R>(
    h: Handler<Q, V, R>, view: View<V>, ttl: int, store: map<string, V>, run: GRun<Q, V, R>, p: string, id: nat,
    t: Tid, q: Q, v: V, n: nat, chain: string, digest: Bytes)
    returns (longer: GRun<Q, V, R>, crossed: nat)
    requires IsGRun(h, view, ttl, store, run)
    requires t !in Final(run).plugin.threads && n !in Final(run).calls && p != "" && Creates(h, q, p, v)
    requires KeysOk(view, Final(run), p, id) && !NoKey(Final(run), p, id)
    requires forall pub :: Current(view, Final(run).plugin.store, p, pub) ==> Signs(view, v, chain, digest, pub)
    requires AwaitsNew(view, Final(run), p, id, v)
    ensures Continues(h, view, ttl, store, run, longer) && StartsWithDeletion(run, longer, p)
    ensures p in Final(run).plugin.store && crossed in Final(longer).calls && Final(longer).calls[crossed].path == p
    ensures if SignedFor(Final(run), p, id)
            then crossed == id && Final(longer).calls[id].chain == Final(run).calls[id].chain
            else crossed == n && Final(longer).calls[n].chain == chain
    ensures Crossed(view, Final(longer).calls[crossed], view.pubkey(Final(run).plugin.store[p]), view.pubkey(v))
  {
    var s := Final(run);
    longer := Replaced(h, view, ttl, store, run, p, t, q, v);
    if SignedFor(s, p, id) {
      longer := SignedThenReplaced(h, view, ttl, store, longer, id);
      crossed := id;
    } else {
      var was := KeyAbout(view, s, p, id);
      longer := OldKeyCached(h, view, ttl, store, longer, p, was);
      longer := SignedFromCache(h, view, ttl, store, longer, n, p, chain, digest);
      crossed := n;
    }
  }

  lemma KeyAbout<Q, V, R>(view: View<V>, s: GState<Q, V, R>, p: string, id: nat) returns (was: Option<Bytes>)
    requires KeysOk(view, s, p, id) && !NoKey(s, p, id)
    requires !SignedFor(s, p, id)
    ensures was.Some? && Current(view, s.plugin.store, p, was.value)
    ensures || (p in s.pubs && Some(s.pubs[p]) == was)
            || (p, was.value) in s.inflight
            || (exists m :: m in s.calls && s.calls[m].path == p && s.calls[m].phase.PubRead?
                            && Some(s.calls[m].phase.pub) == was)
  {
    if p in s.pubs {
      was := Some(s.pubs[p]);
    } else if pub :| (p, pub) in s.inflight {
      was := Some(pub);
    } else {
      var m :| m in s.calls && s.calls[m].path == p && s.calls[m].phase.PubRead?;
      assert ReadOk(view, s.plugin.store, s.calls[m]);
      was := Some(s.calls[m].phase.pub);
    }
  }

  function CreateCosmos(path: string, f: Fresh): PluginCall {
    PluginCall(Create(path, Items([COSMOS])), Env(true, Some(f), true))
  }

  lemma CosmosParses()
    ensures ParseSpec([COSMOS]) == Parsed([COSMOS]) && Canonical([COSMOS])
  {
    assert Canonical([COSMOS]);
    CanonicalParses([COSMOS]);
  }

  lemma CosmosCreated(c: Crypto, path: string, f: Fresh)
    requires KeyPath.Validate(path).Valid?
    ensures path != "" && Screen(CreateCosmos(path, f).req).None?
    ensures DecideCall(c, CreateCosmos(path, f), None).Put?
    ensures DecideCall(c, CreateCosmos(path, f), None).value == NewEntry(c, f, [COSMOS])
  {
    EmptyNameInvalid();
    CosmosParses();
  }

  /** What the client makes of an entry that lists Cosmos alone. */
  lemma CosmosEntry(c: Crypto, f: Fresh, digest: Bytes, pub: Bytes)
    requires KeyForms(c) && |digest| == 32 && Compress(c, pub).Some?
    requires c.sign(f.privateKey, digest).Some? && |c.sign(f.privateKey, digest).value| == 65
    ensures var e, view := NewEntry(c, f, [COSMOS]), KeyView(c);
            && view.list(e) == Parsed([COSMOS]) && view.sign(e, COSMOS, digest).Some?
            && view.assemble(COSMOS, digest, view.sign(e, COSMOS, digest).value, pub).Some?
  {
    CosmosParses();
    KnownIsNormal(COSMOS);
    EntryPartsExact(c, NewEntry(c, f, [COSMOS]), COSMOS, digest);
    CanonicalReadsBack([COSMOS]);
  }

  /** Different compressed keys have different uncompressed forms, and a returned key compresses to the one it is. */
  lemma CrossedKeysDiffer(c: Crypto, call: SignCall<KeyEntry>, one: Bytes, other: Bytes)
    requires KeyForms(c) && c.publicKey(one) != c.publicKey(other)
    requires Crossed(KeyView(c), call, c.decompress(c.publicKey(one)), c.decompress(c.publicKey(other)))
    requires EntryOk(c, call.signer.value.0)
    ensures Compress(c, call.phase.pub) != Some(c.publicKey(call.signer.value.0.privateKey))
  {
    var signer := call.signer.value.0;
    assert KeyView(c).pubkey(signer) == c.decompress(c.publicKey(signer.privateKey));
    assert |c.publicKey(one)| == 33 && |c.publicKey(other)| == 33 && |c.publicKey(signer.privateKey)| == 33;
  }

  /** What a replacement for Cosmos alone does with requests and with a request that has signed. */
  lemma CosmosReplacement(c: Crypto, ttl: int, store: Store, run: KeyRun, p: string, id: nat, f: Fresh, digest: Bytes)
    requires IsKeyRun(c, ttl, store, run) && KeyForms(c) && |digest| == 32
    requires c.sign(f.privateKey, digest).Some? && |c.sign(f.privateKey, digest).value| == 65
    requires SignedFor(Final(run), p, id) ==> Final(run).calls[id].chain != EVM
    ensures AwaitsNew(KeyView(c), Final(run), p, id, NewEntry(c, f, [COSMOS]))
    ensures forall pub :: Current(KeyView(c), Final(run).plugin.store, p, pub) ==>
              Signs(KeyView(c), NewEntry(c, f, [COSMOS]), COSMOS, digest, pub)
  {
    var view, v, s := KeyView(c), NewEntry(c, f, [COSMOS]), Final(run);
    forall pub | Current(view, s.plugin.store, p, pub) ensures Signs(view, v, COSMOS, digest, pub) {
      StoredSound(c, ttl, store, run, p);
      CosmosEntry(c, f, digest, pub);
    }
    if SignedFor(s, p, id) {
      ShapeAt(Handlers(c), view, ttl, store, run, |run.states| - 1, id);
      var i := SignatureAuthorised(c, ttl, store, run, |run.states| - 1, id);
      assert view.pubkey(v) == c.decompress(c.publicKey(f.privateKey));
    }
  }

  lemma StoredSound(c: Crypto, ttl: int, store: Store, run: KeyRun, p: string)
    requires IsKeyRun(c, ttl, store, run)
    ensures p in Final(run).plugin.store ==> EntryOk(c, Final(run).plugin.store[p])
  {
    HandlersLawful(c);
    KeyViewLawful(c);
    forall n | n in store ensures Sound(c).ok(n, store[n]) { }
    PluginInvAt(Handlers(c), Sound(c), KeyView(c), ttl, store, run, |run.states| - 1);
    assert p in Final(run).plugin.store ==> Sound(c).ok(p, Final(run).plugin.store[p]);
  }

  lemma SignerSound(c: Crypto, ttl: int, store: Store, run: KeyRun, id: nat)
    requires IsKeyRun(c, ttl, store, run) && id in Final(run).calls && Final(run).calls[id].signer.Some?
    ensures EntryOk(c, Final(run).calls[id].signer.value.0)
  {
    HandlersLawful(c);
    KeyViewLawful(c);
    forall n | n in store ensures Sound(c).ok(n, store[n]) { }
    var i := SignedByStored(Handlers(c), KeyView(c), ttl, store, run, |run.states| - 1, id);
    PluginInvAt(Handlers(c), Sound(c), KeyView(c), ttl, store, run, i);
    assert Sound(c).ok(Final(run).calls[id].path, Final(run).calls[id].signer.value.0);
  }

  /** The request returns a public key that is not the signer's. */
  predicate KeyIsNotSigners(c: Crypto, call: SignCall<KeyEntry>) {
    && call.phase.Returned? && call.signer.Some?
    && Compress(c, call.phase.pub) != Some(c.publicKey(call.signer.value.0.privateKey))
  }

  /**
   In any run, take the first deletion of a path that meets a public key, or a request that is not for EVM between its
   signature and its key. If the key is created again with another private key, some request returns a public key that
   is not the signer's.
   */
  lemma KeyOutlived(
    c: Crypto, ttl: int, store: Store, run: KeyRun, p: string, id: nat, t: Tid, n: nat, f: Fresh, digest: Bytes)
    returns (longer: KeyRun, crossed: nat)
    requires IsKeyRun(c, ttl, store, run) && KeyForms(c) && KeyPath.Validate(p).Valid? && |digest| == 32
    requires t !in Final(run).plugin.threads && n !in Final(run).calls
    requires KeysSpared(run, |run.steps|, p, id) && !Keyed(Final(run), id) && !NoKey(Final(run), p, id)
    requires SignedFor(Final(run), p, id) ==> Final(run).calls[id].chain != EVM
    requires p in Final(run).plugin.store ==>
               c.publicKey(Final(run).plugin.store[p].privateKey) != c.publicKey(f.privateKey)
    requires c.sign(f.privateKey, digest).Some? && |c.sign(f.privateKey, digest).value| == 65
    ensures IsKeyRun(c, ttl, store, longer) && run.steps <= longer.steps && run.states <= longer.states
    ensures StartsWithDeletion(run, longer, p)
    ensures crossed == (if SignedFor(Final(run), p, id) then id else n) && crossed in Final(longer).calls
    ensures Final(longer).calls[crossed].path == p && Final(longer).calls[crossed].chain != EVM
    ensures crossed == n ==> Final(longer).calls[n].chain == COSMOS
    ensures KeyIsNotSigners(c, Final(longer).calls[crossed])
  {
    var h, view, v := Handlers(c), KeyView(c), NewEntry(c, f, [COSMOS]);
    KeysSparedOk(c, ttl, store, run, p, id);
    CosmosReplacement(c, ttl, store, run, p, id, f, digest);
    CosmosCreated(c, p, f);
    longer, crossed :=
      DeletionMeetsKey(h, view, ttl, store, run, p, id, t, CreateCosmos(p, f), v, n, COSMOS, digest);
    StoredSound(c, ttl, store, run, p);
    SignerSound(c, ttl, store, longer, crossed);
    var was := Final(run).plugin.store[p].privateKey;
    assert view.pubkey(v) == c.decompress(c.publicKey(f.privateKey));
    assert view.pubkey(Final(run).plugin.store[p]) == c.decompress(c.publicKey(was));
    CrossedKeysDiffer(c, Final(longer).calls[crossed], was, f.privateKey);
  }

  lemma KeysSparedOk(c: Crypto, ttl: int, store: Store, run: KeyRun, p: string, id: nat)
    requires IsKeyRun(c, ttl, store, run) && KeysSpared(run, |run.steps|, p, id) && !Keyed(Final(run), id)
    ensures KeysOk(KeyView(c), Final(run), p, id)
  {
    HandlersLawful(c);
    KeyViewLawful(c);
    forall n | n in store ensures Sound(c).ok(n, store[n]) { }
    KeysKeptAt(Handlers(c), Sound(c), KeyView(c), ttl, store, run, |run.steps|, p, id);
  }

  lemma OneKeyStore(c: Crypto, path: string, f: Fresh)
    requires KeyPath.Validate(path).Valid?
    ensures StoreOk(c, map[path := NewEntry(c, f, [COSMOS])])
  {
    CosmosParses();
  }

  /**
   A run in which the cached public key outlives its private key: read and cached, the key is deleted and created again
   with another private key, and a Cosmos request then returns a public key that is not the signer's.
   */
  lemma RecreatedKeyMismatch(c: Crypto, ttl: int, path: string, was: Fresh, f: Fresh, digest: Bytes)
    returns (run: KeyRun)
    requires KeyForms(c) && KeyPath.Validate(path).Valid? && |digest| == 32
    requires c.publicKey(f.privateKey) != c.publicKey(was.privateKey)
    requires c.sign(f.privateKey, digest).Some? && |c.sign(f.privateKey, digest).value| == 65
    ensures IsKeyRun(c, ttl, map[path := NewEntry(c, was, [COSMOS])], run)
    ensures |run.steps| > 2 && run.steps[0] == OtherRead(path) && run.steps[1].OtherKeep? && Deletes(run.steps[2], path)
    ensures 0 in Final(run).calls && Final(run).calls[0].path == path && Final(run).calls[0].chain == COSMOS
    ensures KeyIsNotSigners(c, Final(run).calls[0])
  {
    var h, view, store := Handlers(c), KeyView(c), map[path := NewEntry(c, was, [COSMOS])];
    OneKeyStore(c, path, was);
    EmptyNameInvalid();
    assert view.pubkey(store[path]) == c.decompress(c.publicKey(was.privateKey));
    run := Extend(h, view, ttl, store, Begun(store), OtherRead(path));
    run := Extend(h, view, ttl, store, run, OtherKeep(path, view.pubkey(store[path]).value));
    var crossed: nat;
    run, crossed := KeyOutlived(c, ttl, store, run, path, 0, 0, 0, f, digest);
  }
}
