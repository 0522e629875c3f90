/** Whole runs of the gateway together with the plugin. */
module GatewayRuns {
  import opened Text
  import opened Chains
  import opened Locking
  import opened Runs
  import opened Gateway

  lemma {:induction false} PluginInvAt<Q(!new), V(!new), R>(
    h: Handler<Q, V, R>, k: Keeper<V>, view: View<V>, ttl: int, store: map<string, V>, run: GRun<Q, V, R>, i: nat)
    requires Lawful(h, k) && IsGRun(h, view, ttl, store, run) && i < |run.states|
    requires forall n :: n in store ==> k.ok(n, store[n])
    ensures LockInv(h, run.states[i].plugin) && GrowInv(h, k, run.states[i].plugin)
  {
    if i > 0 {
      PluginInvAt(h, k, view, ttl, store, run, i - 1);
      var s, step := run.states[i - 1], run.steps[i - 1];
      assert Linked(h, view, ttl, run, i - 1);
      if step.PluginStep? {
        LockInvKept(h, s.plugin, step.step);
        StepGrows(h, k, s.plugin, step.step);
      }
    }
  }

  // ------------------------------------------------------------------ one request

  predicate SameRequest<V>(a: SignCall<V>, b: SignCall<V>) {
    a.path == b.path && a.chain == b.chain && a.digest == b.digest
  }

  /** State `i` lies inside the authorizeChain call of this request. */
  ghost predicate Asking<Q, V, R>(run: GRun<Q, V, R>, i: nat, id: nat, call: SignCall<V>) {
    && i < |run.states| && id in run.states[i].calls
    && run.states[i].calls[id].verdict.None? && SameRequest(run.states[i].calls[id], call)
  }

  /** A call's record is changed only by its own steps, which keep the request and what has been settled. */
  lemma CallStep<Q, V, R>(h: Handler<Q, V, R>, view: View<V>, ttl: int, s: GState<Q, V, R>, step: GStep<Q>, id: nat)
    requires GEnabled(s, step) && id in GApply(h, view, ttl, s, step).calls
    ensures var s' := GApply(h, view, ttl, s, step);
            || (id in s.calls && s'.calls[id] == s.calls[id])
            || (id !in s.calls && step.Begin? && step.id == id && s'.calls[id].phase.Checking?
                && s'.calls[id].verdict.None? && s'.calls[id].signer.None?)
            || (id in s.calls && OwnStep(step) && step.id == id && s'.calls[id] == NextCall(view, ttl, s, id, step)
                && SameRequest(s.calls[id], s'.calls[id]))
  {
  }

  /** Phases and verdicts go together. */
  predicate Shape<V>(view: View<V>, call: SignCall<V>) {
    && (call.verdict.None? <==> call.phase.Checking? || call.phase.Fetching? || call.phase.Fetched?)
    && (call.phase.Refused? ==> call.verdict != Some(Allow))
    && (call.signer.Some? ==>
          call.phase.Signed? || call.phase.PubRead? || call.phase.Ready? || call.phase.Returned? || call.phase.Failed?)
    && (!call.phase.Refused? && call.verdict.Some? ==> call.verdict == Some(Allow))
    && (call.phase.Signed? || call.phase.PubRead? || call.phase.Ready? ==>
          call.signer.Some? && call.signer.value.1 == call.phase.parts)
    && (call.phase.Returned? ==>
          call.signer.Some?
          && view.assemble(call.chain, call.digest, call.signer.value.1, call.phase.pub) == Some(call.phase.result))
  }

  lemma {:induction false} ShapeAt<Q, V, R>(
    h: Handler<Q, V, R>, view: View<V>, ttl: int, store: map<string, V>, run: GRun<Q, V, R>, j: nat, id: nat)
    requires IsGRun(h, view, ttl, store, run) && j < |run.states| && id in run.states[j].calls
    ensures Shape(view, run.states[j].calls[id])
  {
    if j > 0 {
      var s, step := run.states[j - 1], run.steps[j - 1];
      assert Linked(h, view, ttl, run, j - 1);
      CallStep(h, view, ttl, s, step, id);
      if id in s.calls { ShapeAt(h, view, ttl, store, run, j - 1, id); }
    }
  }

  /** A verdict and a signer, once recorded, stay. */
  lemma SettledStays<Q, V, R>(h: Handler<Q, V, R>, view: View<V>, ttl: int, s: GState<Q, V, R>, step: GStep<Q>, id: nat)
    requires GEnabled(s, step) && id in s.calls && Shape(view, s.calls[id])
    ensures var s' := GApply(h, view, ttl, s, step);
            && id in s'.calls && SameRequest(s.calls[id], s'.calls[id])
            && (s.calls[id].verdict.Some? ==> s'.calls[id].verdict == s.calls[id].verdict)
            && (s.calls[id].signer.Some? ==> s'.calls[id].signer == s.calls[id].signer)
            && (s.calls[id].signer.None? && s'.calls[id].signer.Some? ==>
                  step == Sign(id) && s.calls[id].phase.Cleared?)
            && (s.calls[id].verdict.None? && s'.calls[id].verdict.Some? ==>
                  (step.Check? || step.Fetch? || step.FetchFails? || step.Conclude?) && step.id == id)
  {
    CallStep(h, view, ttl, s, step, id);
  }

  // ------------------------------------------------------------------ deletions that meet no list

  /** The request has not consulted the cache yet. */
  predicate Unchecked<Q, V, R>(s: GState<Q, V, R>, id: nat) { id !in s.calls || s.calls[id].phase.Checking? }

  /** Until the request consulted the cache, every deletion of the path met no list that names a chain. */
  ghost predicate ListsSpared<Q, V, R>(run: GRun<Q, V, R>, i: nat, p: string, id: nat)
    requires i <= |run.steps| <= |run.states|
  {
    forall l :: 0 <= l < i && Deletes(run.steps[l], p) && Unchecked(run.states[l], id) ==> NoList(run.states[l], p)
  }

  /** Then, until that point, every list cached or in flight for the path is within the stored one. */
  lemma {:induction false} ListsOkAt<Q(!new), V(!new), R>(
    h: Handler<Q, V, R>, k: Keeper<V>, view: View<V>, ttl: int, store: map<string, V>, run: GRun<Q, V, R>,
    i: nat, p: string, id: nat)
    requires Lawful(h, k) && ViewLawful(view, k) && IsGRun(h, view, ttl, store, run) && i < |run.states|
    requires forall n :: n in store ==> k.ok(n, store[n])
    requires ListsSpared(run, i, p, id) && Unchecked(run.states[i], id)
    ensures ListsOk(view, run.states[i], p)
  {
    if i > 0 {
      var s, step := run.states[i - 1], run.steps[i - 1];
      assert Linked(h, view, ttl, run, i - 1);
      UncheckedBefore(h, view, ttl, s, step, id);
      ListsOkAt(h, k, view, ttl, store, run, i - 1, p, id);
      PluginInvAt(h, k, view, ttl, store, run, i - 1);
      ListsOkNext(h, k, view, ttl, s, step, p);
    }
  }

  lemma UncheckedBefore<Q, V, R>(
    h: Handler<Q, V, R>, view: View<V>, ttl: int, s: GState<Q, V, R>, step: GStep<Q>, id: nat)
    requires GEnabled(s, step) && Unchecked(GApply(h, view, ttl, s, step), id)
    ensures Unchecked(s, id)
  {
    if id in GApply(h, view, ttl, s, step).calls { CallStep(h, view, ttl, s, step, id); }
  }

  lemma ListsOkNext<Q(!new), V(!new), R>(
    h: Handler<Q, V, R>, k: Keeper<V>, view: View<V>, ttl: int, s: GState<Q, V, R>, step: GStep<Q>, p: string)
    requires Lawful(h, k) && ViewLawful(view, k) && LockInv(h, s.plugin) && GrowInv(h, k, s.plugin)
    requires ListsOk(view, s, p) && GEnabled(s, step) && (Deletes(step, p) ==> NoList(s, p))
    ensures ListsOk(view, GApply(h, view, ttl, s, step), p)
  {
    if Deletes(step, p) {
      DeletionAndLists(h, view, ttl, s, step, p);
    } else if step.PluginStep? {
      PluginStepGrows(h, k, view, ttl, s, step, p);
      ListsGrown(view, k, s, GApply(h, view, ttl, s, step), p);
    } else {
      CallStepKeepsLists(h, view, ttl, s, step, p);
    }
  }

  // ------------------------------------------------------------------ deletions that meet no key

  /** The request has its public key, or has failed. */
  predicate Keyed<Q, V, R>(s: GState<Q, V, R>, id: nat) {
    id in s.calls && (s.calls[id].phase.Ready? || s.calls[id].phase.Returned? || s.calls[id].phase.Failed?)
  }

  /** Until then, every deletion of the path met no public key, nor the request between its signature and its key. */
  ghost predicate KeysSpared<Q, V, R>(run: GRun<Q, V, R>, i: nat, p: string, id: nat)
    requires i <= |run.steps| <= |run.states|
  {
    forall l :: 0 <= l < i && Deletes(run.steps[l], p) && !Keyed(run.states[l], id) ==> NoKey(run.states[l], p, id)
  }

  /** Until it has its key, the keys about are the stored one; from then on, the key it has is the signer's. */
  ghost predicate KeysKept<Q, V, R>(view: View<V>, s: GState<Q, V, R>, p: string, id: nat) {
    if Keyed(s, id) then s.calls[id].path == p ==> SignerOk(view, s.plugin.store, s.calls[id])
    else KeysOk(view, s, p, id)
  }

  lemma {:induction false} KeysKeptAt<Q(!new), V(!new), R>(
    h: Handler<Q, V, R>, k: Keeper<V>, view: View<V>, ttl: int, store: map<string, V>, run: GRun<Q, V, R>,
    i: nat, p: string, id: nat)
    requires Lawful(h, k) && ViewLawful(view, k) && IsGRun(h, view, ttl, store, run) && i < |run.states|
    requires forall n :: n in store ==> k.ok(n, store[n])
    requires KeysSpared(run, i, p, id)
    ensures KeysKept(view, run.states[i], p, id)
  {
    if i > 0 {
      var s, step := run.states[i - 1], run.steps[i - 1];
      assert Linked(h, view, ttl, run, i - 1);
      KeysKeptAt(h, k, view, ttl, store, run, i - 1, p, id);
      PluginInvAt(h, k, view, ttl, store, run, i - 1);
      if Keyed(s, id) {
        KeyedStays(h, view, ttl, s, step, p, id);
      } else {
        KeysOkNext(h, k, view, ttl, s, step, p, id);
      }
    }
  }

  lemma KeyedStays<Q, V, R>(
    h: Handler<Q, V, R>, view: View<V>, ttl: int, s: GState<Q, V, R>, step: GStep<Q>, p: string, id: nat)
    requires GEnabled(s, step) && Keyed(s, id) && KeysKept(view, s, p, id)
    ensures Keyed(GApply(h, view, ttl, s, step), id) && KeysKept(view, GApply(h, view, ttl, s, step), p, id)
  {
    CallStep(h, view, ttl, s, step, id);
  }

  lemma KeysOkNext<Q(!new), V(!new), R>(
    h: Handler<Q, V, R>, k: Keeper<V>, view: View<V>, ttl: int, s: GState<Q, V, R>, step: GStep<Q>, p: string, id: nat)
    requires Lawful(h, k) && ViewLawful(view, k) && LockInv(h, s.plugin) && GrowInv(h, k, s.plugin)
    requires KeysOk(view, s, p, id) && GEnabled(s, step) && (Deletes(step, p) ==> NoKey(s, p, id))
    ensures KeysOk(view, GApply(h, view, ttl, s, step), p, id)
  {
    if Deletes(step, p) {
      DeletionAndKeys(h, view, ttl, s, step, p, id);
    } else if step.PluginStep? {
      PluginStepGrows(h, k, view, ttl, s, step, p);
      KeysGrown(view, k, s, GApply(h, view, ttl, s, step), p, id);
    } else {
      CallStepKeepsKeys(h, view, ttl, s, step, p, id);
    }
  }

  // ------------------------------------------------------------------ verdicts and signatures

  /** A list in flight was the stored list at some moment inside the call. */
  lemma {:induction false} FetchedWithin<Q, V, R>(
    h: Handler<Q, V, R>, view: View<V>, ttl: int, store: map<string, V>, run: GRun<Q, V, R>, j: nat, id: nat)
    returns (i: nat)
    requires IsGRun(h, view, ttl, store, run) && j < |run.states|
    requires id in run.states[j].calls && run.states[j].calls[id].phase.Fetched?
    ensures var call := run.states[j].calls[id];
            && i < j && Asking(run, i, id, call) && call.path in run.states[i].plugin.store
            && view.list(run.states[i].plugin.store[call.path]) == call.phase.list
  {
    var s, step := run.states[j - 1], run.steps[j - 1];
    assert Linked(h, view, ttl, run, j - 1);
    CallStep(h, view, ttl, s, step, id);
    ShapeAt(h, view, ttl, store, run, j - 1, id);
    if s.calls[id] == run.states[j].calls[id] {
      i := FetchedWithin(h, view, ttl, store, run, j - 1, id);
    } else {
      i := j - 1;
    }
  }

  /** An allow from the cache, and a not-found from the read, agree with the store at that moment. */
  lemma RuledOnTheSpot<Q, V, R>(
    h: Handler<Q, V, R>, view: View<V>, ttl: int, s: GState<Q, V, R>, step: GStep<Q>, id: nat)
    requires GEnabled(s, step) && id in s.calls && s.calls[id].verdict.None?
    requires (step.Check? || step.Fetch? || step.FetchFails?) && step.id == id
    requires step.Check? ==> ListsOk(view, s, s.calls[id].path)
    ensures var call := GApply(h, view, ttl, s, step).calls[id];
            call.verdict.Some? ==>
              || call.verdict == Some(Direct(view, s.plugin.store, call.path, call.chain))
              || call.verdict == Some(Forbidden) || call.verdict == Some(Unavailable)
  {
    var call := s.calls[id];
    if step.Check? && CacheAllows(s.cache, ttl, call.path, call.chain, step.now) {
      assert Within(view, s.plugin.store, call.path, s.cache[call.path].chains);
      assert call.chain in Elements(s.cache[call.path].chains);
    }
  }

  /** The step that settles a verdict settles it as a direct look at the store would have, inside the call. */
  lemma VerdictSettled<Q, V, R>(
    h: Handler<Q, V, R>, view: View<V>, ttl: int, store: map<string, V>, run: GRun<Q, V, R>, j: nat, id: nat)
    returns (i: nat)
    requires IsGRun(h, view, ttl, store, run) && 0 < j < |run.states|
    requires id in run.states[j - 1].calls && run.states[j - 1].calls[id].verdict.None?
    requires id in run.states[j].calls && run.states[j].calls[id].verdict.Some?
    requires run.steps[j - 1].Check? ==> ListsOk(view, run.states[j - 1], run.states[j].calls[id].path)
    ensures var call := run.states[j].calls[id];
            i < j && Asking(run, i, id, call)
            && (call.verdict == Some(Direct(view, run.states[i].plugin.store, call.path, call.chain))
                || call.verdict == Some(Forbidden) || call.verdict == Some(Unavailable))
  {
    var s, step := run.states[j - 1], run.steps[j - 1];
    assert Linked(h, view, ttl, run, j - 1);
    ShapeAt(h, view, ttl, store, run, j - 1, id);
    SettledStays(h, view, ttl, s, step, id);
    if step.Conclude? {
      i := FetchedWithin(h, view, ttl, store, run, j - 1, id);
    } else {
      i := j - 1;
      RuledOnTheSpot(h, view, ttl, s, step, id);
    }
  }

  /**
   Every allow, deny and not-found of authorizeChain is what a direct look at the store would have said at some moment
   inside the call. An allow is so if, until the request consulted the cache, every deletion of the path met no list; a
   denial and a not-found are so in any case.
   */
  lemma {:induction false} VerdictWithin<Q(!new), V(!new), R>(
    h: Handler<Q, V, R>, k: Keeper<V>, view: View<V>, ttl: int, store: map<string, V>, run: GRun<Q, V, R>,
    j: nat, id: nat)
    returns (i: nat)
    requires Lawful(h, k) && ViewLawful(view, k) && IsGRun(h, view, ttl, store, run) && j < |run.states|
    requires forall n :: n in store ==> k.ok(n, store[n])
    requires id in run.states[j].calls && run.states[j].calls[id].verdict.Some?
    requires var v := run.states[j].calls[id].verdict.value;
             v.Deny? || v.Missing? || (v.Allow? && ListsSpared(run, j, run.states[j].calls[id].path, id))
    ensures var call := run.states[j].calls[id];
            i < j && Asking(run, i, id, call)
            && call.verdict == Some(Direct(view, run.states[i].plugin.store, call.path, call.chain))
  {
    var s, step := run.states[j - 1], run.steps[j - 1];
    assert Linked(h, view, ttl, run, j - 1);
    assert id in s.calls by { CallStep(h, view, ttl, s, step, id); }
    if s.calls[id].verdict.Some? {
      ShapeAt(h, view, ttl, store, run, j - 1, id);
      SettledStays(h, view, ttl, s, step, id);
      i := VerdictWithin(h, k, view, ttl, store, run, j - 1, id);
    } else {
      if step.Check? && step.id == id {
        CheckOnlyAllows(h, view, ttl, s, step, id);
        ListsOkAt(h, k, view, ttl, store, run, j - 1, run.states[j].calls[id].path, id);
      }
      i := VerdictSettled(h, view, ttl, store, run, j, id);
    }
  }

  // ------------------------------------------------------------------ how old an allow can be

  /** A request read this list from the store at moment `i` and cached it at step `l`, with this clock reading. */
  ghost predicate CachedAt<Q, V, R>(
    view: View<V>, run: GRun<Q, V, R>, i: nat, l: nat, writer: nat, p: string, cached: Cached) {
    && i < l < |run.steps| <= |run.states| && run.steps[l] == Conclude(writer, cached.at)
    && writer in run.states[l].calls && run.states[l].calls[writer].path == p
    && Asking(run, i, writer, run.states[l].calls[writer])
    && p in run.states[i].plugin.store && view.list(run.states[i].plugin.store[p]) == Parsed(cached.chains)
  }

  /** Every cached list was read from the store and cached, with its clock reading, by some request. */
  lemma {:induction false} CachedFrom<Q, V, R>(
    h: Handler<Q, V, R>, view: View<V>, ttl: int, store: map<string, V>, run: GRun<Q, V, R>, j: nat, p: string)
    returns (i: nat, l: nat, writer: nat)
    requires IsGRun(h, view, ttl, store, run) && j < |run.states| && p in run.states[j].cache
    ensures l < j && CachedAt(view, run, i, l, writer, p, run.states[j].cache[p])
  {
    var s, step := run.states[j - 1], run.steps[j - 1];
    assert Linked(h, view, ttl, run, j - 1);
    if p in s.cache && run.states[j].cache[p] == s.cache[p] {
      i, l, writer := CachedFrom(h, view, ttl, store, run, j - 1, p);
    } else {
      assert step.Conclude?;
      writer, l := step.id, j - 1;
      i := FetchedWithin(h, view, ttl, store, run, l, writer);
    }
  }

  /** The request was allowed by its check, from a list cached at most `ttl` before by its clock reading. */
  ghost predicate ServedFresh<Q, V, R>(
    view: View<V>, ttl: int, run: GRun<Q, V, R>, id: nat, call: SignCall<V>, i: nat, l: nat, writer: nat, m: nat,
    cached: Cached)
  {
    && CachedAt(view, run, i, l, writer, call.path, cached) && call.chain in cached.chains
    && l < m < |run.steps| && run.steps[m].Check? && run.steps[m].id == id && run.steps[m].now - cached.at <= ttl
    && Asking(run, m, id, call)
  }

  /**
   With deletions at any moment, an allow is never older than the cache's time to live: the chain was in the stored
   list at some moment inside the call, or when it was read for a cache entry no more than `ttl` old at the check.
   */
  lemma {:induction false} AllowNoOlderThanTtl<Q, V, R>(
    h: Handler<Q, V, R>, view: View<V>, ttl: int, store: map<string, V>, run: GRun<Q, V, R>, j: nat, id: nat)
    returns (i: nat, l: nat, writer: nat, m: nat, cached: Cached)
    requires IsGRun(h, view, ttl, store, run) && j < |run.states|
    requires id in run.states[j].calls && run.states[j].calls[id].verdict == Some(Allow)
    ensures var call := run.states[j].calls[id];
            || (i < j && Asking(run, i, id, call)
                && Direct(view, run.states[i].plugin.store, call.path, call.chain) == Allow)
            || (m < j && ServedFresh(view, ttl, run, id, call, i, l, writer, m, cached))
  {
    var s, step := run.states[j - 1], run.steps[j - 1];
    assert Linked(h, view, ttl, run, j - 1);
    assert id in s.calls by { CallStep(h, view, ttl, s, step, id); }
    ShapeAt(h, view, ttl, store, run, j - 1, id);
    SettledStays(h, view, ttl, s, step, id);
    if s.calls[id].verdict.Some? {
      i, l, writer, m, cached := AllowNoOlderThanTtl(h, view, ttl, store, run, j - 1, id);
    } else {
      i, l, writer, m, cached := AllowSettled(h, view, ttl, store, run, j, id);
    }
  }

  lemma AllowSettled<Q, V, R>(
    h: Handler<Q, V, R>, view: View<V>, ttl: int, store: map<string, V>, run: GRun<Q, V, R>, j: nat, id: nat)
    returns (i: nat, l: nat, writer: nat, m: nat, cached: Cached)
    requires IsGRun(h, view, ttl, store, run) && 0 < j < |run.states|
    requires id in run.states[j - 1].calls && run.states[j - 1].calls[id].verdict.None?
    requires id in run.states[j].calls && run.states[j].calls[id].verdict == Some(Allow)
    ensures var call := run.states[j].calls[id];
            || (i < j && Asking(run, i, id, call)
                && Direct(view, run.states[i].plugin.store, call.path, call.chain) == Allow)
            || (m < j && ServedFresh(view, ttl, run, id, call, i, l, writer, m, cached))
  {
    var s, step := run.states[j - 1], run.steps[j - 1];
    assert Linked(h, view, ttl, run, j - 1);
    ShapeAt(h, view, ttl, store, run, j - 1, id);
    SettledStays(h, view, ttl, s, step, id);
    if step.Check? {
      var p := s.calls[id].path;
      m, cached := j - 1, s.cache[p];
      i, l, writer := CachedFrom(h, view, ttl, store, run, m, p);
    } else {
      i := VerdictSettled(h, view, ttl, store, run, j, id);
      l, writer, m, cached := 0, 0, 0, Cached([], 0);
    }
  }

  /** Nothing but an allow is ever answered from the cache. */
  lemma CheckOnlyAllows<Q, V, R>(
    h: Handler<Q, V, R>, view: View<V>, ttl: int, s: GState<Q, V, R>, step: GStep<Q>, id: nat)
    requires GEnabled(s, step) && id in s.calls && s.calls[id].verdict.None? && step.Check?
    requires id in GApply(h, view, ttl, s, step).calls
    ensures GApply(h, view, ttl, s, step).calls[id].verdict in {None, Some(Allow)}
  {
  }

  /**
   Whatever the caches hold, and with deletions allowed: a request carries a signature only if, at some moment of the
   request, the plugin loaded a stored entry that it itself accepted for that chain and digest.
   */
  lemma {:induction false} SignedByStored<Q, V, R>(
    h: Handler<Q, V, R>, view: View<V>, ttl: int, store: map<string, V>, run: GRun<Q, V, R>, j: nat, id: nat)
    returns (i: nat)
    requires IsGRun(h, view, ttl, store, run) && j < |run.states|
    requires id in run.states[j].calls && run.states[j].calls[id].signer.Some?
    ensures var call := run.states[j].calls[id];
            && i < j && id in run.states[i].calls && SameRequest(run.states[i].calls[id], call)
            && call.path in run.states[i].plugin.store
            && run.states[i].plugin.store[call.path] == call.signer.value.0
            && view.sign(call.signer.value.0, call.chain, call.digest) == Some(call.signer.value.1)
            && call.verdict == Some(Allow)
  {
    var s, step := run.states[j - 1], run.steps[j - 1];
    assert Linked(h, view, ttl, run, j - 1);
    CallStep(h, view, ttl, s, step, id);
    ShapeAt(h, view, ttl, store, run, j - 1, id);
    SettledStays(h, view, ttl, s, step, id);
    if s.calls[id].signer.None? {
      i := j - 1;
    } else {
      i := SignedByStored(h, view, ttl, store, run, j - 1, id);
    }
  }

  /**
   If, until the request had its key, every deletion of the path met no key, then the public key returned with a
   signature is that of the signing entry.
   */
  lemma ReturnedKeySigned<Q(!new), V(!new), R>(
    h: Handler<Q, V, R>, k: Keeper<V>, view: View<V>, ttl: int, store: map<string, V>, run: GRun<Q, V, R>,
    j: nat, id: nat)
    requires Lawful(h, k) && ViewLawful(view, k) && IsGRun(h, view, ttl, store, run) && j < |run.states|
    requires forall n :: n in store ==> k.ok(n, store[n])
    requires id in run.states[j].calls && run.states[j].calls[id].phase.Returned?
    requires KeysSpared(run, j, run.states[j].calls[id].path, id)
    ensures var call := run.states[j].calls[id];
            call.signer.Some? && view.pubkey(call.signer.value.0) == Some(call.phase.pub)
  {
    KeysKeptAt(h, k, view, ttl, store, run, j, run.states[j].calls[id].path, id);
  }
}
