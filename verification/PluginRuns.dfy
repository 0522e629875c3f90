/** The plugin's create and update handlers under concurrency. */
module PluginRuns {
  import opened Text
  import opened Chains
  import opened Plugin
  import opened Locking
  import opened Serial
  import opened Runs
  import KeyPath

  /** A request together with what the outside world will answer during it. */
  datatype PluginCall = PluginCall(req: Request, env: Env)

  /** A store that fails changes nothing. */
  function DecideCall(c: Crypto, q: PluginCall, loaded: Option<KeyEntry>): Decision<KeyEntry, Response> {
    match Asked(q.req)
    case Rejected => Answer(BadChains)
    case Parsed(asked) =>
      if !q.env.loads then Answer(StorageFailure)
      else
        match Decide(c, q.req, asked, loaded, q.env.made)
        case Put(e, r) => if q.env.stores then Put(e, r) else Answer(StorageFailure)
        case Answer(r) => Answer(r)
  }

  function Handlers(c: Crypto): Handler<PluginCall, KeyEntry, Response> {
    Handler((q: PluginCall) => q.req.name,
            (q: PluginCall) => Screen(q.req),
            (q: PluginCall, e: Option<KeyEntry>) => DecideCall(c, q, e))
  }

  ghost function Sound(c: Crypto): Keeper<KeyEntry> {
    Keeper((n: string, e: KeyEntry) => KeyPath.Validate(n).Valid? && EntryOk(c, e),
           (e: KeyEntry, e': KeyEntry) => Grows(e, e'))
  }

  /** A call run alone through the protocol is the handler run alone. */
  lemma ExecAgrees(c: Crypto, q: PluginCall, store: Store)
    ensures Serial.Exec(Handlers(c), q, store) == Plugin.Exec(c, q.req, q.env, store)
  {
  }

  lemma HandlerLaw(c: Crypto, q: PluginCall, v: Option<KeyEntry>)
    requires Screen(q.req).None? && (v.Some? ==> EntryOk(c, v.value)) && DecideCall(c, q, v).Put?
    ensures KeyPath.Validate(q.req.name).Valid? && EntryOk(c, DecideCall(c, q, v).value)
    ensures v.Some? ==> Grows(v.value, DecideCall(c, q, v).value)
  {
    DecideKeeps(c, q.req, v, q.env.made);
  }

  lemma HandlersLawful(c: Crypto)
    ensures Lawful(Handlers(c), Sound(c))
  {
    var h, k := Handlers(c), Sound(c);
    forall q: PluginCall, v: Option<KeyEntry> |
      h.screen(q).None? && (v.Some? ==> k.ok(h.name(q), v.value)) && h.decide(q, v).Put?
      ensures k.ok(h.name(q), h.decide(q, v).value)
      ensures v.Some? ==> k.grows(v.value, h.decide(q, v).value)
    {
      HandlerLaw(c, q, v);
    }
  }

  lemma SoundAt(c: Crypto, store: Store, run: Run<PluginCall, KeyEntry, Response>, i: nat)
    requires IsRun(Handlers(c), store, run) && i < |run.states| && StoreOk(c, store)
    ensures LockInv(Handlers(c), run.states[i])
    ensures GrowInv(Handlers(c), Sound(c), run.states[i])
  {
    HandlersLawful(c);
    forall m | m in store ensures Sound(c).ok(m, store[m]) { }
    LockInvAt(Handlers(c), store, run, i);
    GrowInvAt(Handlers(c), Sound(c), store, run, i);
  }

  /**
   In every reachable state, deletions included, each stored list is canonical (or empty, for a legacy key) under a
   valid three-segment name, and the stored public key belongs to the stored private key.
   */
  lemma StoreStaysSound(c: Crypto, store: Store, run: Run<PluginCall, KeyEntry, Response>, i: nat)
    requires IsRun(Handlers(c), store, run) && i < |run.states| && StoreOk(c, store)
    ensures StoreOk(c, run.states[i].store)
  {
    SoundAt(c, store, run, i);
    var s := run.states[i].store;
    forall n | n in s ensures KeyPath.Validate(n).Valid? && EntryOk(c, s[n]) { assert Sound(c).ok(n, s[n]); }
  }

  /** Between deletions of a key its material never changes and its list never shrinks. */
  lemma KeyKeptBetweenDeletes(
    c: Crypto, store: Store, run: Run<PluginCall, KeyEntry, Response>, i: nat, j: nat, n: string)
    requires IsRun(Handlers(c), store, run) && i <= j < |run.states| && StoreOk(c, store)
    requires forall l :: i <= l < j ==> run.steps[l] != Delete(n)
    requires n in run.states[i].store
    ensures n in run.states[j].store && Grows(run.states[i].store[n], run.states[j].store[n])
  {
    HandlersLawful(c);
    forall m | m in store ensures Sound(c).ok(m, store[m]) { }
    GrowsBetweenDeletes(Handlers(c), Sound(c), store, run, i, j, n);
  }

  /** What an update that reports success has merged, and where. */
  lemma DecidedUpdate(c: Crypto, q: PluginCall, loaded: Option<KeyEntry>)
    requires Screen(q.req).None? && (loaded.Some? ==> EntryOk(c, loaded.value))
    requires DecideCall(c, q, loaded).response.Updated?
    ensures var d := DecideCall(c, q, loaded);
            && d.response.name == q.req.name && loaded.Some?
            && Asked(q.req).Parsed? && Elements(Asked(q.req).chains) <= Elements(d.response.chains)
            && Elements(if d.Put? then d.value.chains else loaded.value.chains) == Elements(d.response.chains)
  {
    var asked := Asked(q.req).chains;
    AskedCanonical(q.req);
    MergeIsUnion(loaded.value.chains, asked);
  }

  /** If the response reports an update, it reports the chains asked for, and the store holds all it reports. */
  ghost predicate Recorded(q: Request, r: Response, store: Store) {
    r.Updated? ==>
      && r.name == q.name && Asked(q).Parsed? && Elements(Asked(q).chains) <= Elements(r.chains)
      && r.name in store && Elements(r.chains) <= Elements(store[r.name].chains)
  }

  lemma LoadRecords(c: Crypto, q: PluginCall, store: Store, r: Response)
    requires Screen(q.req).None? && (q.req.name in store ==> EntryOk(c, store[q.req.name]))
    requires DecideCall(c, q, Find(store, q.req.name)) == Answer(r)
    ensures Recorded(q.req, r, store)
  {
    if r.Updated? { DecidedUpdate(c, q, Find(store, q.req.name)); }
  }

  lemma SaveRecords(c: Crypto, q: PluginCall, loaded: Option<KeyEntry>, store: Store)
    requires Screen(q.req).None? && (loaded.Some? ==> EntryOk(c, loaded.value)) && DecideCall(c, q, loaded).Put?
    ensures var d := DecideCall(c, q, loaded); Recorded(q.req, d.response, store[q.req.name := d.value])
  {
    if DecideCall(c, q, loaded).response.Updated? { DecidedUpdate(c, q, loaded); }
  }

  lemma ScreenUpdatesNothing(q: Request, store: Store)
    requires Screen(q).Some?
    ensures Recorded(q, Screen(q).value, store)
  {}

  /** At the step in which the answer is given. */
  lemma AnswerRecorded(c: Crypto, s: State<PluginCall, KeyEntry, Response>, step: Step<PluginCall>, t: Tid)
    requires LockInv(Handlers(c), s) && GrowInv(Handlers(c), Sound(c), s) && Enabled(s, step)
    requires t in s.threads && !Responded(s.threads[t].phase)
    requires t in Apply(Handlers(c), s, step).threads && Responded(Apply(Handlers(c), s, step).threads[t].phase)
    ensures var s' := Apply(Handlers(c), s, step);
            Recorded(s.threads[t].req.req, s'.threads[t].phase.response, s'.store)
  {
    var h, q, store := Handlers(c), s.threads[t].req, s.store;
    var s' := Apply(h, s, step);
    var r := s'.threads[t].phase.response;
    AnswerGiven(h, s, step, t);
    assert h.screen(q) == Screen(q.req) && h.name(q) == q.req.name;
    if Screen(q.req) == Some(r) {
      ScreenUpdatesNothing(q.req, s'.store);
    } else if step.Load? {
      assert q.req.name in store ==> Sound(c).ok(q.req.name, store[q.req.name]);
      LoadRecords(c, q, store, r);
    } else {
      assert LoadedOk(h, Sound(c), store, s.threads[t]);
      SaveRecords(c, q, s.threads[t].phase.entry, store);
    }
  }

  /** At every later step but a deletion of that key. */
  lemma RecordStays(
    c: Crypto, s: State<PluginCall, KeyEntry, Response>, step: Step<PluginCall>, q: Request, r: Response)
    requires LockInv(Handlers(c), s) && GrowInv(Handlers(c), Sound(c), s)
    requires Enabled(s, step) && step != Delete(q.name) && Recorded(q, r, s.store)
    ensures Recorded(q, r, Apply(Handlers(c), s, step).store)
  {
    var s' := Apply(Handlers(c), s, step);
    HandlersLawful(c);
    StepGrows(Handlers(c), Sound(c), s, step);
    if r.Updated? { assert Sound(c).grows(s.store[q.name], s'.store[q.name]); }
  }

  lemma RecordedNext(c: Crypto, s: State<PluginCall, KeyEntry, Response>, step: Step<PluginCall>, t: Tid)
    requires LockInv(Handlers(c), s) && GrowInv(Handlers(c), Sound(c), s)
    requires Enabled(s, step) && t in s.threads
    requires Responded(s.threads[t].phase) ==> step != Delete(s.threads[t].req.req.name)
    requires t in Apply(Handlers(c), s, step).threads && Responded(Apply(Handlers(c), s, step).threads[t].phase)
    requires Responded(s.threads[t].phase) ==> Recorded(s.threads[t].req.req, s.threads[t].phase.response, s.store)
    ensures var s' := Apply(Handlers(c), s, step);
            Recorded(s.threads[t].req.req, s'.threads[t].phase.response, s'.store)
  {
    AnswerStays(Handlers(c), s, step, t);
    if Responded(s.threads[t].phase) {
      RecordStays(c, s, step, s.threads[t].req.req, s.threads[t].phase.response);
    } else {
      AnswerRecorded(c, s, step, t);
    }
  }

  /**
   No update is lost: the chains reported to any caller, which include those asked for, are still stored in every later
   state, as long as that key is not deleted after the answer.
   */
  lemma {:induction false} NoUpdateLost(
    c: Crypto, store: Store, run: Run<PluginCall, KeyEntry, Response>, k: nat, t: Tid)
    requires IsRun(Handlers(c), store, run) && k < |run.states| && StoreOk(c, store)
    requires t in run.states[k].threads && Responded(run.states[k].threads[t].phase)
    requires forall i :: 0 <= i < k && t in run.states[i].threads && Responded(run.states[i].threads[t].phase) ==>
               run.steps[i] != Delete(run.states[k].threads[t].req.req.name)
    ensures var th := run.states[k].threads[t]; Recorded(th.req.req, th.phase.response, run.states[k].store)
  {
    RequestStays(c, store, run, k, t);
    if Responded(run.states[k - 1].threads[t].phase) { NoUpdateLost(c, store, run, k - 1, t); }
    SoundAt(c, store, run, k - 1);
    RecordedNext(c, run.states[k - 1], run.steps[k - 1], t);
  }

  /** Whoever has an answer was there before the last step, with the same request. */
  lemma RequestStays(c: Crypto, store: Store, run: Run<PluginCall, KeyEntry, Response>, k: nat, t: Tid)
    requires IsRun(Handlers(c), store, run) && k < |run.states| && StoreOk(c, store)
    requires t in run.states[k].threads && Responded(run.states[k].threads[t].phase)
    ensures k > 0 && t in run.states[k - 1].threads && run.states[k - 1].threads[t].req == run.states[k].threads[t].req
    ensures Enabled(run.states[k - 1], run.steps[k - 1])
    ensures run.states[k] == Apply(Handlers(c), run.states[k - 1], run.steps[k - 1])
  {
    var h, s, step := Handlers(c), run.states[k - 1], run.steps[k - 1];
    SoundAt(c, store, run, k - 1);
    AnswererWasThere(h, s, step, t);
    AnswerStays(h, s, step, t);
  }

  /** A step that stores under a name for a call that found nothing stores a newly generated key, for a create. */
  lemma MadeIsGenerated(c: Crypto, store: Store, run: Run<PluginCall, KeyEntry, Response>, l: nat, n: string)
    requires IsRun(Handlers(c), store, run) && Makes(Handlers(c), run, l, n)
    ensures var q := run.states[l].threads[run.steps[l].tid].req;
            && q.req.Create? && q.env.made.Some? && Asked(q.req).Parsed?
            && n in run.states[l + 1].store
            && run.states[l + 1].store[n] == NewEntry(c, q.env.made.value, Asked(q.req).chains)
  {}

  /** Each path has a key generated and stored at most once, unless it is deleted in between. */
  lemma KeyBornOnce(c: Crypto, store: Store, run: Run<PluginCall, KeyEntry, Response>, i: nat, j: nat, n: string)
    requires IsRun(Handlers(c), store, run) && i < j && Makes(Handlers(c), run, i, n) && Makes(Handlers(c), run, j, n)
    ensures exists l :: i < l < j && run.steps[l] == Delete(n)
  {
    BornOnce(Handlers(c), store, run, i, j, n);
  }

  // ------------------------------------------------------------------ a deletion undone

  function AddEvm(n: string, env: Env): PluginCall { PluginCall(Update(n, false, Items([EVM])), env) }

  lemma EmptyNameInvalid()
    ensures !KeyPath.Validate("").Valid?
  {
    assert Split("", '/') == [""];
  }

  lemma EvmAsked(n: string, env: Env)
    requires KeyPath.Validate(n).Valid?
    ensures Screen(AddEvm(n, env).req).None? && n != "" && Asked(AddEvm(n, env).req) == Parsed([EVM])
  {
    EmptyNameInvalid();
    EvmParses();
  }

  lemma EvmParses()
    ensures ParseSpec([EVM]) == Parsed([EVM])
  {
    assert Canonical([EVM]);
    CanonicalParses([EVM]);
  }

  lemma EvmMerged()
    ensures ParseSpec([COSMOS] + [EVM]) == Parsed([COSMOS, EVM]) && multiset([COSMOS]) != multiset([COSMOS, EVM])
  {
    assert [COSMOS] + [EVM] == [COSMOS, EVM];
    assert Canonical([COSMOS, EVM]);
    CanonicalParses([COSMOS, EVM]);
    assert |multiset([COSMOS])| == 1 && |multiset([COSMOS, EVM])| == 2;
  }

  lemma EvmAdded(c: Crypto, n: string, e: KeyEntry, env: Env)
    requires KeyPath.Validate(n).Valid? && e.chains == [COSMOS] && env.loads && env.stores
    ensures DecideCall(c, AddEvm(n, env), Some(e)) == Put(e.(chains := [COSMOS, EVM]), Updated(n, [COSMOS, EVM]))
    ensures DecideCall(c, AddEvm(n, env), None) == Answer(NotFound)
  {
    EvmAsked(n, env);
    EvmMerged();
  }

  lemma UndoingRun(c: Crypto, n: string, e: KeyEntry, env: Env) returns (run: Run<PluginCall, KeyEntry, Response>)
    requires KeyPath.Validate(n).Valid? && e.chains == [COSMOS] && env.loads && env.stores
    ensures IsRun(Handlers(c), map[n := e], run)
    ensures var q := AddEvm(n, env);
            && run.steps == [Arrive(0, q), TakeMutex(0), Acquire(0), Load(0), Delete(n), Save(0)]
            && Last(run).store == map[n := e][n := e.(chains := [COSMOS, EVM])]
            && 0 in Last(run).threads && Last(run).threads[0] == Thread(q, Leaving(0, Updated(n, [COSMOS, EVM])))
  {
    EvmAsked(n, env);
    EvmAdded(c, n, e, env);
    assert Find(map[n := e], n) == Some(e);
    run := InterposedRun(Handlers(c), map[n := e], AddEvm(n, env));
  }

  lemma UpdateAfterDelete(c: Crypto, n: string, e: KeyEntry, env: Env)
    requires KeyPath.Validate(n).Valid? && e.chains == [COSMOS] && env.loads && env.stores
    ensures Serial.Exec(Handlers(c), AddEvm(n, env), PlayOne(Handlers(c), map[n := e], Erase(n))).0 == NotFound
  {
    EvmAsked(n, env);
    EvmAdded(c, n, e, env);
    assert Find(PlayOne(Handlers(c), map[n := e], Erase(n)), n) == None;
  }

  /**
   A run from a one-key store in which a deletion is undone: it lands between the load and the store of an update that
   adds a chain. The key is back with its old material, though the deletion succeeded and the update reports success.
   Neither order of the two, run one at a time, gives that store and that response.
   */
  lemma DeleteUndoneByUpdate(
    c: Crypto, n: string, e: KeyEntry, env: Env) returns (run: Run<PluginCall, KeyEntry, Response>)
    requires KeyPath.Validate(n).Valid? && e.chains == [COSMOS] && env.loads && env.stores
    ensures IsRun(Handlers(c), map[n := e], run)
    ensures var q, s := AddEvm(n, env), Last(run);
            && run.steps == [Arrive(0, q), TakeMutex(0), Acquire(0), Load(0), Delete(n), Save(0)]
            && n in s.store && s.store[n] == e.(chains := [COSMOS, EVM])
            && 0 in s.threads && s.threads[0] == Thread(q, Leaving(0, Updated(n, [COSMOS, EVM])))
            && s.store != PlayOne(Handlers(c), PlayOne(Handlers(c), map[n := e], Call(0, q)), Erase(n))
            && s.threads[0].phase.response != Serial.Exec(Handlers(c), q, PlayOne(Handlers(c), map[n := e], Erase(n))).0
  {
    run := UndoingRun(c, n, e, env);
    UpdateAfterDelete(c, n, e, env);
    assert n !in PlayOne(Handlers(c), PlayOne(Handlers(c), map[n := e], Call(0, AddEvm(n, env))), Erase(n));
  }
}
