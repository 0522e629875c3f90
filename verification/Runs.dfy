/** Whole runs of locked calls and deletions. */
module Runs {
  import opened Text
  import opened Locking
  import opened Serial

  datatype Run<Q, V, R> = Run(states: seq<State<Q, V, R>>, steps: seq<Step<Q>>)

  ghost predicate IsRun<Q, V, R>(h: Handler<Q, V, R>, store: map<string, V>, run: Run<Q, V, R>) {
    && |run.states| == |run.steps| + 1
    && Init(store, run.states[0])
    && forall i :: 0 <= i < |run.steps| ==>
         Enabled(run.states[i], run.steps[i]) && run.states[i + 1] == Apply(h, run.states[i], run.steps[i])
  }

  lemma {:induction false} LockInvAt<Q, V, R>(h: Handler<Q, V, R>, store: map<string, V>, run: Run<Q, V, R>, i: nat)
    requires IsRun(h, store, run) && i < |run.states|
    ensures LockInv(h, run.states[i])
  {
    if i > 0 {
      LockInvAt(h, store, run, i - 1);
      LockInvKept(h, run.states[i - 1], run.steps[i - 1]);
    }
  }

  /** With clean deletions only, store and responses are those of the calls and deletions run one at a time. */
  lemma {:induction false} SerialInEffectOrder<Q, V, R>(
    h: Handler<Q, V, R>, store: map<string, V>, run: Run<Q, V, R>, i: nat)
    requires IsRun(h, store, run) && i < |run.states|
    requires forall k :: 0 <= k < i ==> Clean(h, run.states[k], run.steps[k])
    ensures SerialInv(h, store, run.states[i])
  {
    if i > 0 {
      SerialInEffectOrder(h, store, run, i - 1);
      LockInvAt(h, store, run, i - 1);
      SerialInvKept(h, store, run.states[i - 1], run.steps[i - 1]);
    }
  }

  lemma {:induction false} OrderInvAt<Q, V, R>(h: Handler<Q, V, R>, store: map<string, V>, run: Run<Q, V, R>, i: nat)
    requires IsRun(h, store, run) && i < |run.states|
    requires forall k :: 0 <= k < i ==> !run.steps[k].Delete?
    ensures OrderInv(h, run.states[i])
    ensures forall x :: x in run.states[i].acquired ==> x.Call?
    ensures forall x :: x in run.states[i].log ==> x.Call?
  {
    if i > 0 {
      OrderInvAt(h, store, run, i - 1);
      LockInvAt(h, store, run, i - 1);
      OrderInvKept(h, run.states[i - 1], run.steps[i - 1]);
      CallsOnlyKept(h, run.states[i - 1], run.steps[i - 1]);
    }
  }

  lemma CallsOnlyKept<Q, V, R>(h: Handler<Q, V, R>, s: State<Q, V, R>, step: Step<Q>)
    requires Enabled(s, step) && !step.Delete?
    requires (forall x :: x in s.acquired ==> x.Call?) && forall x :: x in s.log ==> x.Call?
    ensures var s' := Apply(h, s, step);
            (forall x :: x in s'.acquired ==> x.Call?) && forall x :: x in s'.log ==> x.Call?
  {}

  /** No call is between locking and taking effect. */
  predicate Quiet<Q, V, R>(s: State<Q, V, R>) {
    forall t :: t in s.threads ==> !s.threads[t].phase.Entered? && !s.threads[t].phase.Loaded?
  }

  lemma AcquiredIsLogged<Q, V, R>(h: Handler<Q, V, R>, s: State<Q, V, R>, j: nat)
    requires Quiet(s) && OrderInv(h, s) && j < |s.acquired| && s.acquired[j].Call?
    requires forall i, j :: 0 <= i < j < |s.log| && s.log[i].Call? && s.log[j].Call? ==> s.log[i].tid != s.log[j].tid
    ensures s.acquired[j] in s.log
  {
    var n := h.name(s.acquired[j].req);
    assert OrderOn(h, s, n);
    ProjectPosition(h, s.acquired, j, n);
    ProjectDistinct(h, s.log, n);
    var p := Project(h, s.acquired[..j], n);
    assert Project(h, s.acquired, n)[|p|] == s.acquired[j];
  }

  lemma LoggedIsAcquired<Q, V, R>(h: Handler<Q, V, R>, s: State<Q, V, R>, i: nat)
    requires Quiet(s) && OrderInv(h, s) && i < |s.log| && s.log[i].Call?
    ensures s.log[i] in s.acquired
  {
    var n := h.name(s.log[i].req);
    assert OrderOn(h, s, n);
    ProjectPosition(h, s.log, i, n);
    ProjectMembers(h, s.acquired, n);
    var p := Project(h, s.log[..i], n);
    assert Project(h, s.log, n)[|p|] == s.log[i];
  }

  lemma {:induction false} ProjectMembers<Q, V, R>(h: Handler<Q, V, R>, items: seq<Item<Q>>, n: string)
    ensures forall x :: x in Project(h, items, n) ==> x in items
  {
    if items != [] { ProjectMembers(h, items[..|items| - 1], n); }
  }

  lemma LockOrderResponse<Q, V, R>(h: Handler<Q, V, R>, store: map<string, V>, s: State<Q, V, R>, j: nat)
    requires Quiet(s) && OrderInv(h, s) && SerialInv(h, store, s) && j < |s.acquired|
    requires forall x :: x in s.acquired ==> x.Call?
    requires forall x :: x in s.log ==> x.Call?
    ensures var item := s.acquired[j];
            && item.tid in s.threads && s.threads[item.tid].req == item.req && Responded(s.threads[item.tid].phase)
            && s.threads[item.tid].phase.response == ResponseAt(h, store, s.acquired, j)
  {
    assert s.acquired[j] in s.acquired;
    AcquiredIsLogged(h, s, j);
    var i :| 0 <= i < |s.log| && s.log[i] == s.acquired[j];
    assert LoggedOk(h, store, s, i);
    assert OrderOn(h, s, h.name(s.acquired[j].req));
    SameProjectionsSameResponse(h, store, s.log, i, s.acquired, j);
  }

  /**
   Without deletions, once no call is half done, the store and every response are exactly those of running the
   calls one at a time in the order they locked; a call that never locked was turned away before the lock.
   */
  lemma SerialInLockOrder<Q, V, R>(h: Handler<Q, V, R>, store: map<string, V>, run: Run<Q, V, R>, k: nat)
    requires IsRun(h, store, run) && k < |run.states|
    requires forall i :: 0 <= i < k ==> !run.steps[i].Delete?
    requires Quiet(run.states[k])
    ensures var s := run.states[k];
            && s.store == Play(h, store, s.acquired)
            && (forall j :: 0 <= j < |s.acquired| ==>
                  && s.acquired[j].Call? && s.acquired[j].tid in s.threads
                  && var th := s.threads[s.acquired[j].tid];
                     && th.req == s.acquired[j].req && Responded(th.phase)
                     && th.phase.response == ResponseAt(h, store, s.acquired, j))
            && (forall t :: t in s.threads && Responded(s.threads[t].phase) ==>
                  || h.screen(s.threads[t].req) == Some(s.threads[t].phase.response)
                  || Call(t, s.threads[t].req) in s.acquired)
  {
    var s := run.states[k];
    OrderInvAt(h, store, run, k);
    SerialInEffectOrder(h, store, run, k);
    forall n ensures Project(h, s.acquired, n) == Project(h, s.log, n) { assert OrderOn(h, s, n); }
    SameProjectionsSameStore(h, store, s.log, s.acquired);
    forall j | 0 <= j < |s.acquired|
      ensures s.acquired[j].Call? && s.acquired[j].tid in s.threads
      ensures var th := s.threads[s.acquired[j].tid];
              && th.req == s.acquired[j].req && Responded(th.phase)
              && th.phase.response == ResponseAt(h, store, s.acquired, j)
    {
      assert s.acquired[j] in s.acquired;
      LockOrderResponse(h, store, s, j);
    }
    forall t | t in s.threads && Responded(s.threads[t].phase)
      ensures || h.screen(s.threads[t].req) == Some(s.threads[t].phase.response)
              || Call(t, s.threads[t].req) in s.acquired
    {
      assert AnsweredOk(h, s, t);
      if Call(t, s.threads[t].req) in s.log {
        var i :| 0 <= i < |s.log| && s.log[i] == Call(t, s.threads[t].req);
        LoggedIsAcquired(h, s, i);
      }
    }
  }

  /**
   The deletions the theorem leaves out are exactly those that break it. After a run of clean deletions, let a key be
   deleted between a call's load and its store. The store brings the key back, which the call followed by the deletion
   never does; and the outcome is that of the deletion followed by the call exactly when the deletion was clean.
   */
  lemma InterposedDelete<Q, V, R>(h: Handler<Q, V, R>, store: map<string, V>, run: Run<Q, V, R>, i: nat, t: Tid)
    requires IsRun(h, store, run) && i < |run.states|
    requires forall k :: 0 <= k < i ==> Clean(h, run.states[k], run.steps[k])
    requires t in run.states[i].threads && run.states[i].threads[t].phase.Loaded?
    requires h.name(run.states[i].threads[t].req) in run.states[i].store && h.name(run.states[i].threads[t].req) != ""
    ensures var s := run.states[i];
            var q := s.threads[t].req;
            var n := h.name(q);
            var s2 := Apply(h, Apply(h, s, Delete(n)), Save(t));
            && s2.threads[t].phase.Leaving? && n in s2.store
            && s2.store != PlayOne(h, PlayOne(h, s.store, Call(t, q)), Erase(n))
            && ((s2.threads[t].phase.response, s2.store) == Exec(h, q, PlayOne(h, s.store, Erase(n))) <==>
                Clean(h, s, Delete(n)))
  {
    var s := run.states[i];
    LockInvAt(h, store, run, i);
    SerialInEffectOrder(h, store, run, i);
    assert ThreadOk(h, s, t) && AnsweredOk(h, s, t);
    LoneLoader(h, s, t);
    StoredBack(h, s, t);
  }

  /** Only one call at a time has a name's entry loaded. */
  lemma LoneLoader<Q, V, R>(h: Handler<Q, V, R>, s: State<Q, V, R>, t: Tid)
    requires LockInv(h, s) && t in s.threads && s.threads[t].phase.Loaded? && h.name(s.threads[t].req) in s.store
    ensures var q := s.threads[t].req;
            Clean(h, s, Delete(h.name(q))) <==> h.decide(q, None) == h.decide(q, s.threads[t].phase.entry)
  {
    forall u | u in s.threads && s.threads[u].phase.Loaded? && h.name(s.threads[u].req) == h.name(s.threads[t].req)
      ensures u == t
    {
      MutualExclusion(h, s, t, u);
    }
  }

  lemma StoredBack<Q, V, R>(h: Handler<Q, V, R>, s: State<Q, V, R>, t: Tid)
    requires t in s.threads && s.threads[t].phase.Loaded? && h.name(s.threads[t].req) != ""
    requires h.screen(s.threads[t].req).None? && h.decide(s.threads[t].req, s.threads[t].phase.entry).Put?
    ensures var q := s.threads[t].req;
            var n := h.name(q);
            var s2 := Apply(h, Apply(h, s, Delete(n)), Save(t));
            && s2.threads[t].phase.Leaving? && n in s2.store
            && ((s2.threads[t].phase.response, s2.store) == Exec(h, q, s.store - {n}) <==>
                h.decide(q, None) == h.decide(q, s.threads[t].phase.entry))
  {
    var q := s.threads[t].req;
    var n := h.name(q);
    var d, e := h.decide(q, s.threads[t].phase.entry), h.decide(q, None);
    var rest := s.store - {n};
    var mid := Apply(h, s, Delete(n));
    assert mid.threads == s.threads && mid.store == rest;
    assert Find(rest, n) == None;
    if e.Put? { assert rest[n := e.value][n] == e.value && rest[n := d.value][n] == d.value; }
  }

  // ------------------------------------------------------------------ growth

  /** What must hold of a stored entry, and how an entry may change. */
  datatype Keeper<!V> = Keeper(ok: (string, V) -> bool, grows: (V, V) -> bool)

  ghost predicate Lawful<Q(!new), V(!new), R>(h: Handler<Q, V, R>, k: Keeper<V>) {
    && (forall q: Q, v: Option<V> ::
          h.screen(q).None? && (v.Some? ==> k.ok(h.name(q), v.value)) && h.decide(q, v).Put? ==>
          k.ok(h.name(q), h.decide(q, v).value) && (v.Some? ==> k.grows(v.value, h.decide(q, v).value)))
    && (forall v: V :: k.grows(v, v))
    && (forall u: V, v: V, w: V :: k.grows(u, v) && k.grows(v, w) ==> k.grows(u, w))
  }

  /** An entry loaded under the lock is still the stored one, unless a deletion has removed that. */
  ghost predicate LoadedOk<Q, V, R>(h: Handler<Q, V, R>, k: Keeper<V>, store: map<string, V>, th: Thread<Q, V, R>) {
    th.phase.Loaded? ==>
      && (th.phase.entry.Some? ==> k.ok(h.name(th.req), th.phase.entry.value))
      && (h.name(th.req) in store ==> th.phase.entry == Some(store[h.name(th.req)]))
  }

  ghost predicate GrowInv<Q, V, R>(h: Handler<Q, V, R>, k: Keeper<V>, s: State<Q, V, R>) {
    && (forall n :: n in s.store ==> k.ok(n, s.store[n]))
    && (forall t :: t in s.threads ==> LoadedOk(h, k, s.store, s.threads[t]))
  }

  lemma SaveGrows<Q(!new), V(!new), R>(h: Handler<Q, V, R>, k: Keeper<V>, s: State<Q, V, R>, step: Step<Q>)
    requires Lawful(h, k) && LockInv(h, s) && GrowInv(h, k, s) && step.Save? && Enabled(s, step)
    ensures var s' := Apply(h, s, step);
            && GrowInv(h, k, s')
            && forall n :: n in s.store ==> n in s'.store && k.grows(s.store[n], s'.store[n])
  {
    var t := step.tid;
    var s' := Apply(h, s, step);
    assert ThreadOk(h, s, t) && LoadedOk(h, k, s.store, s.threads[t]);
    forall u | u in s'.threads ensures LoadedOk(h, k, s'.store, s'.threads[u]) {
      if u != t {
        assert LoadedOk(h, k, s.store, s.threads[u]);
        if s.threads[u].phase.Loaded? { MutualExclusion(h, s, t, u); }
      }
    }
  }

  /** Every step but a deletion of its name keeps an entry and lets it only grow; entries stay sound in any case. */
  lemma StepGrows<Q(!new), V(!new), R>(h: Handler<Q, V, R>, k: Keeper<V>, s: State<Q, V, R>, step: Step<Q>)
    requires Lawful(h, k) && LockInv(h, s) && GrowInv(h, k, s) && Enabled(s, step)
    ensures var s' := Apply(h, s, step);
            && GrowInv(h, k, s')
            && forall n :: n in s.store && step != Delete(n) ==> n in s'.store && k.grows(s.store[n], s'.store[n])
  {
    if step.Save? {
      SaveGrows(h, k, s, step);
    } else {
      var s' := Apply(h, s, step);
      forall u | u in s'.threads ensures LoadedOk(h, k, s'.store, s'.threads[u]) {
        assert u in s.threads ==> LoadedOk(h, k, s.store, s.threads[u]);
      }
    }
  }

  lemma {:induction false} GrowInvAt<Q(!new), V(!new), R>(
    h: Handler<Q, V, R>, k: Keeper<V>, store: map<string, V>, run: Run<Q, V, R>, i: nat)
    requires Lawful(h, k) && IsRun(h, store, run) && i < |run.states|
    requires forall n :: n in store ==> k.ok(n, store[n])
    ensures GrowInv(h, k, run.states[i])
  {
    if i > 0 {
      GrowInvAt(h, k, store, run, i - 1);
      LockInvAt(h, store, run, i - 1);
      StepGrows(h, k, run.states[i - 1], run.steps[i - 1]);
    }
  }

  /** Between deletions of a name its entry stays and only grows, whatever else runs. */
  lemma {:induction false} GrowsBetweenDeletes<Q(!new), V(!new), R>(
    h: Handler<Q, V, R>, k: Keeper<V>, store: map<string, V>, run: Run<Q, V, R>, i: nat, j: nat, n: string)
    requires Lawful(h, k) && IsRun(h, store, run) && i <= j < |run.states|
    requires forall m :: m in store ==> k.ok(m, store[m])
    requires forall l :: i <= l < j ==> run.steps[l] != Delete(n)
    requires n in run.states[i].store
    ensures n in run.states[j].store && k.grows(run.states[i].store[n], run.states[j].store[n])
  {
    if i < j {
      GrowsBetweenDeletes(h, k, store, run, i, j - 1, n);
      GrowInvAt(h, k, store, run, j - 1);
      LockInvAt(h, store, run, j - 1);
      StepGrows(h, k, run.states[j - 1], run.steps[j - 1]);
      assert k.grows(run.states[j - 1].store[n], run.states[j].store[n]);
    }
  }

  // ------------------------------------------------------------------ answers

  /** A thread is moved only by its own steps. */
  lemma OthersStandStill<Q, V, R>(h: Handler<Q, V, R>, s: State<Q, V, R>, step: Step<Q>, t: Tid)
    requires Enabled(s, step) && t in s.threads && (step.Delete? || step.tid != t)
    ensures t in Apply(h, s, step).threads && Apply(h, s, step).threads[t] == s.threads[t]
  {}

  lemma AnswererWasThere<Q, V, R>(h: Handler<Q, V, R>, s: State<Q, V, R>, step: Step<Q>, t: Tid)
    requires Enabled(s, step) && t in Apply(h, s, step).threads && Responded(Apply(h, s, step).threads[t].phase)
    ensures t in s.threads
  {}

  /** An answer, once given, stays. */
  lemma AnswerStays<Q, V, R>(h: Handler<Q, V, R>, s: State<Q, V, R>, step: Step<Q>, t: Tid)
    requires Enabled(s, step) && t in s.threads
    ensures var s' := Apply(h, s, step);
            && t in s'.threads && s'.threads[t].req == s.threads[t].req
            && (Responded(s.threads[t].phase) ==>
                  Responded(s'.threads[t].phase) && s'.threads[t].phase.response == s.threads[t].phase.response)
  {
    if step.Delete? || step.tid != t { OthersStandStill(h, s, step, t); }
  }

  /** It is given before the lock, or by the decision on a loaded entry, which is then carried out. */
  lemma AnswerGiven<Q, V, R>(h: Handler<Q, V, R>, s: State<Q, V, R>, step: Step<Q>, t: Tid)
    requires LockInv(h, s) && Enabled(s, step) && t in s.threads && !Responded(s.threads[t].phase)
    requires t in Apply(h, s, step).threads && Responded(Apply(h, s, step).threads[t].phase)
    ensures var q, s' := s.threads[t].req, Apply(h, s, step);
            var r := s'.threads[t].phase.response;
            || h.screen(q) == Some(r)
            || (h.screen(q).None? && step == Load(t) && s'.store == s.store &&
                h.decide(q, Find(s.store, h.name(q))) == Answer(r))
            || (h.screen(q).None? && step == Save(t) && s.threads[t].phase.Loaded? &&
                var d := h.decide(q, s.threads[t].phase.entry);
                d.Put? && d.response == r && s'.store == s.store[h.name(q) := d.value])
  {
    assert ThreadOk(h, s, t);
    if step.Delete? || step.tid != t { OthersStandStill(h, s, step, t); }
  }

  // ------------------------------------------------------------------ at most one birth

  /** Step `l` stores an entry under `n` for a call that had found none. */
  predicate Makes<Q, V, R>(h: Handler<Q, V, R>, run: Run<Q, V, R>, l: nat, n: string) {
    && l < |run.steps| && l < |run.states| && run.steps[l].Save? && run.steps[l].tid in run.states[l].threads
    && var th := run.states[l].threads[run.steps[l].tid];
       && th.phase.Loaded? && th.phase.entry.None? && h.name(th.req) == n && h.decide(th.req, None).Put?
  }

  /** Two steps that make the same name have a deletion of it between them: the lock keeps a second maker out. */
  lemma BornOnce<Q(!new), V(!new), R>(
    h: Handler<Q, V, R>, store: map<string, V>, run: Run<Q, V, R>, i: nat, j: nat, n: string)
    requires IsRun(h, store, run) && i < j && Makes(h, run, i, n) && Makes(h, run, j, n)
    ensures exists l :: i < l < j && run.steps[l] == Delete(n)
  {
    var anything := Keeper((m: string, v: V) => true, (u: V, v: V) => true);
    assert n in run.states[i + 1].store;
    if forall l :: i + 1 <= l < j ==> run.steps[l] != Delete(n) {
      GrowsBetweenDeletes(h, anything, store, run, i + 1, j, n);
      GrowInvAt(h, anything, store, run, j);
      assert LoadedOk(h, anything, run.states[j].store, run.states[j].threads[run.steps[j].tid]);
    }
  }

  // ------------------------------------------------------------------ building runs

  function Last<Q, V, R>(run: Run<Q, V, R>): State<Q, V, R>
    requires run.states != []
  {
    run.states[|run.states| - 1]
  }

  ghost function Begun<Q, V, R>(store: map<string, V>): Run<Q, V, R> {
    Run([State(store, map[], 0, map[], map[], [], [])], [])
  }

  /** The run with one more step. */
  function Extend<Q, V, R>(h: Handler<Q, V, R>, run: Run<Q, V, R>, step: Step<Q>): Run<Q, V, R>
    requires run.states != [] && Enabled(Last(run), step)
  {
    Run(run.states + [Apply(h, Last(run), step)], run.steps + [step])
  }

  lemma ExtendIsRun<Q, V, R>(h: Handler<Q, V, R>, store: map<string, V>, run: Run<Q, V, R>, step: Step<Q>)
    requires IsRun(h, store, run) && Enabled(Last(run), step)
    ensures IsRun(h, store, Extend(h, run, step))
  {
    var longer := Extend(h, run, step);
    forall i | 0 <= i < |longer.steps|
      ensures Enabled(longer.states[i], longer.steps[i])
      ensures longer.states[i + 1] == Apply(h, longer.states[i], longer.steps[i])
    {
      if i < |run.steps| { assert longer.states[i] == run.states[i] && longer.states[i + 1] == run.states[i + 1]; }
    }
  }

  /** One call runs up to its load, and finds what is stored. */
  lemma LoadedRun<Q, V, R>(h: Handler<Q, V, R>, store: map<string, V>, q: Q) returns (run: Run<Q, V, R>)
    requires h.screen(q).None? && h.decide(q, Find(store, h.name(q))).Put?
    ensures IsRun(h, store, run) && run.steps == [Arrive(0, q), TakeMutex(0), Acquire(0), Load(0)]
    ensures Last(run).store == store && 0 in Last(run).threads
    ensures Last(run).threads[0] == Thread(q, Loaded(0, Find(store, h.name(q))))
  {
    run := Begun(store);
    ExtendIsRun(h, store, run, Arrive(0, q));
    run := Extend(h, run, Arrive(0, q));
    ExtendIsRun(h, store, run, TakeMutex(0));
    run := Extend(h, run, TakeMutex(0));
    ExtendIsRun(h, store, run, Acquire(0));
    run := Extend(h, run, Acquire(0));
    ExtendIsRun(h, store, run, Load(0));
    run := Extend(h, run, Load(0));
  }

  /** A deletion between that load and the store, from the initial state on. */
  lemma InterposedRun<Q, V, R>(h: Handler<Q, V, R>, store: map<string, V>, q: Q) returns (run: Run<Q, V, R>)
    requires h.screen(q).None? && h.decide(q, Find(store, h.name(q))).Put? && h.name(q) != ""
    ensures IsRun(h, store, run)
    ensures run.steps == [Arrive(0, q), TakeMutex(0), Acquire(0), Load(0), Delete(h.name(q)), Save(0)]
    ensures var d := h.decide(q, Find(store, h.name(q)));
            && Last(run).store == store[h.name(q) := d.value]
            && 0 in Last(run).threads && Last(run).threads[0] == Thread(q, Leaving(0, d.response))
  {
    run := LoadedRun(h, store, q);
    var n := h.name(q);
    ExtendIsRun(h, store, run, Delete(n));
    run := Extend(h, run, Delete(n));
    ExtendIsRun(h, store, run, Save(0));
    run := Extend(h, run, Save(0));
    var v := h.decide(q, Find(store, n)).value;
    assert (store - {n})[n := v] == store[n := v];
  }
}
