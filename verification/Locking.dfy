/**
 Load-compute-store calls under a per-name lock, run concurrently, with deletions that take no lock.

 A call looks up its name's mutex in a lock table (LoadOrStore), locks it, loads the entry under its name, stores
 a new entry if there is one to store, and unlocks. A deletion is one storage step. A run is any sequence of such
 steps by any number of threads. What a call answers and stores is given by a `Handler`. A call with nothing to store,
 or whose store fails, takes effect at its load; all it does afterwards is to answer and unlock.
 */
module Locking {
  import opened Text

  /** Nothing is stored, either for want of a new entry or because the store fails; or an entry is stored. */
  datatype Decision<+V, +R> = Answer(response: R) | Put(value: V, response: R)

  /** The name a request is about, its answer before the lock (if any), and what it does with the loaded entry. */
  datatype Handler<!Q, !V, !R> = Handler(
    name: Q -> string,
    screen: Q -> Option<R>,
    decide: (Q, Option<V>) -> Decision<V, R>
  )

  type Tid = nat

  datatype Phase<V, R> =
    | Arrived
    | Waiting(mutex: nat)
    | Entered(mutex: nat)
    | Loaded(mutex: nat, entry: Option<V>)
    | Leaving(mutex: nat, response: R)
    | Answered(response: R)

  datatype Thread<Q, V, R> = Thread(req: Q, phase: Phase<V, R>)

  /** A call, or a deletion, as an item of a one-at-a-time execution. */
  datatype Item<Q> = Call(tid: Tid, req: Q) | Erase(name: string)

  /**
   `locks` is the lock table and `owner` tells who has locked a mutex. `acquired` records the calls in the order
   they locked, `log` records calls and deletions in the order they took effect.
   */
  datatype State<Q, V, R> = State(
    store: map<string, V>,
    locks: map<string, nat>,
    minted: nat,
    owner: map<nat, Tid>,
    threads: map<Tid, Thread<Q, V, R>>,
    acquired: seq<Item<Q>>,
    log: seq<Item<Q>>
  )

  datatype Step<Q> =
    | Arrive(tid: Tid, req: Q)
    | TakeMutex(tid: Tid)
    | Acquire(tid: Tid)
    | Load(tid: Tid)
    | Save(tid: Tid)
    | Release(tid: Tid)
    | Delete(name: string)

  function Find<V>(store: map<string, V>, name: string): Option<V> {
    if name in store then Some(store[name]) else None
  }

  predicate Holds<V, R>(p: Phase<V, R>) { p.Entered? || p.Loaded? || p.Leaving? }

  predicate Responded<V, R>(p: Phase<V, R>) { p.Leaving? || p.Answered? }

  predicate Enabled<Q, V, R>(s: State<Q, V, R>, step: Step<Q>) {
    match step
    case Arrive(t, _) => t !in s.threads
    case TakeMutex(t) => t in s.threads && s.threads[t].phase.Arrived?
    case Acquire(t) => t in s.threads && s.threads[t].phase.Waiting? && s.threads[t].phase.mutex !in s.owner
    case Load(t) => t in s.threads && s.threads[t].phase.Entered?
    case Save(t) => t in s.threads && s.threads[t].phase.Loaded?
    case Release(t) => t in s.threads && s.threads[t].phase.Leaving?
    case Delete(n) => n != ""
  }

  function Move<Q, V, R>(s: State<Q, V, R>, t: Tid, p: Phase<V, R>): State<Q, V, R>
    requires t in s.threads
  {
    s.(threads := s.threads[t := s.threads[t].(phase := p)])
  }

  /** The call takes effect with this response: it is logged, and the deferred unlock is all that remains. */
  function Commit<Q, V, R>(s: State<Q, V, R>, t: Tid, r: R): State<Q, V, R>
    requires t in s.threads && (s.threads[t].phase.Entered? || s.threads[t].phase.Loaded?)
  {
    Move(s, t, Leaving(s.threads[t].phase.mutex, r)).(log := s.log + [Call(t, s.threads[t].req)])
  }

  function Apply<Q, V, R>(h: Handler<Q, V, R>, s: State<Q, V, R>, step: Step<Q>): State<Q, V, R>
    requires Enabled(s, step)
  {
    match step
    case Arrive(t, req) => s.(threads := s.threads[t := Thread(req, Arrived)])
    case TakeMutex(t) =>
      var q := s.threads[t].req;
      if h.screen(q).Some? then Move(s, t, Answered(h.screen(q).value))
      else if h.name(q) in s.locks then Move(s, t, Waiting(s.locks[h.name(q)]))
      else Move(s, t, Waiting(s.minted)).(locks := s.locks[h.name(q) := s.minted], minted := s.minted + 1)
    case Acquire(t) =>
      var m := s.threads[t].phase.mutex;
      Move(s, t, Entered(m)).(owner := s.owner[m := t], acquired := s.acquired + [Call(t, s.threads[t].req)])
    case Load(t) =>
      var q := s.threads[t].req;
      var entry := Find(s.store, h.name(q));
      (match h.decide(q, entry)
       case Answer(r) => Commit(s, t, r)
       case Put(_, _) => Move(s, t, Loaded(s.threads[t].phase.mutex, entry)))
    case Save(t) =>
      var q := s.threads[t].req;
      (match h.decide(q, s.threads[t].phase.entry)
       case Put(v, r) => Commit(s, t, r).(store := s.store[h.name(q) := v])
       case Answer(r) => Commit(s, t, r))
    case Release(t) =>
      var p := s.threads[t].phase;
      Move(s, t, Answered(p.response)).(owner := s.owner - {p.mutex})
    case Delete(n) => s.(store := s.store - {n}, log := s.log + [Erase(n)])
  }

  ghost predicate Init<Q, V, R>(store: map<string, V>, s: State<Q, V, R>) {
    && s.store == store && s.locks == map[] && s.minted == 0 && s.owner == map[]
    && s.threads == map[] && s.acquired == [] && s.log == []
  }

  // ------------------------------------------------------------------ mutual exclusion

  predicate TableOk<Q, V, R>(s: State<Q, V, R>) {
    && (forall n :: n in s.locks ==> s.locks[n] < s.minted)
    && (forall n, n' :: n in s.locks && n' in s.locks && s.locks[n] == s.locks[n'] ==> n == n')
  }

  /**
   A thread past the table lookup has its name's mutex in hand; inside the critical section it owns it; past the load
   it has an entry to store.
   */
  predicate ThreadOk<Q, V, R>(h: Handler<Q, V, R>, s: State<Q, V, R>, t: Tid)
    requires t in s.threads
  {
    var th := s.threads[t];
    && (!th.phase.Arrived? && !th.phase.Answered? ==>
          h.screen(th.req).None? && h.name(th.req) in s.locks && s.locks[h.name(th.req)] == th.phase.mutex)
    && (Holds(th.phase) ==> th.phase.mutex in s.owner && s.owner[th.phase.mutex] == t)
    && (th.phase.Loaded? ==> h.decide(th.req, th.phase.entry).Put?)
  }

  predicate OwnerOk<Q, V, R>(s: State<Q, V, R>, m: nat)
    requires m in s.owner
  {
    s.owner[m] in s.threads && Holds(s.threads[s.owner[m]].phase) && s.threads[s.owner[m]].phase.mutex == m
  }

  ghost predicate LockInv<Q, V, R>(h: Handler<Q, V, R>, s: State<Q, V, R>) {
    && TableOk(s)
    && (forall t :: t in s.threads ==> ThreadOk(h, s, t))
    && (forall m :: m in s.owner ==> OwnerOk(s, m))
  }

  /** The lock table never lets two calls on one name inside at once. */
  lemma MutualExclusion<Q, V, R>(h: Handler<Q, V, R>, s: State<Q, V, R>, t: Tid, t': Tid)
    requires LockInv(h, s) && t in s.threads && t' in s.threads
    requires Holds(s.threads[t].phase) && Holds(s.threads[t'].phase)
    ensures h.name(s.threads[t].req) == h.name(s.threads[t'].req) <==> t == t'
  {
    assert ThreadOk(h, s, t) && ThreadOk(h, s, t');
  }

  /** Threads other than `t` are the same in both states. */
  ghost predicate Only<Q, V, R>(s: State<Q, V, R>, s': State<Q, V, R>, t: Tid) {
    && t in s'.threads && s'.threads.Keys == s.threads.Keys + {t}
    && forall u :: u in s.threads && u != t ==> s'.threads[u] == s.threads[u]
  }

  lemma LocksKeptOutside<Q, V, R>(h: Handler<Q, V, R>, s: State<Q, V, R>, s': State<Q, V, R>, t: Tid)
    requires LockInv(h, s) && Only(s, s', t) && TableOk(s') && s'.owner == s.owner
    requires forall n :: n in s.locks ==> n in s'.locks && s'.locks[n] == s.locks[n]
    requires t in s.threads ==> !Holds(s.threads[t].phase)
    requires ThreadOk(h, s', t)
    ensures LockInv(h, s')
  {
    forall u | u in s'.threads ensures ThreadOk(h, s', u) { assert u == t || ThreadOk(h, s, u); }
    forall m | m in s'.owner ensures OwnerOk(s', m) { assert OwnerOk(s, m); }
  }

  lemma LocksKeptInside<Q, V, R>(h: Handler<Q, V, R>, s: State<Q, V, R>, s': State<Q, V, R>, t: Tid)
    requires LockInv(h, s) && Only(s, s', t) && t in s.threads && Holds(s.threads[t].phase)
    requires s'.locks == s.locks && s'.minted == s.minted && s'.owner == s.owner
    requires s'.threads[t].req == s.threads[t].req
    requires Holds(s'.threads[t].phase) && s'.threads[t].phase.mutex == s.threads[t].phase.mutex
    requires s'.threads[t].phase.Loaded? ==> h.decide(s'.threads[t].req, s'.threads[t].phase.entry).Put?
    ensures LockInv(h, s')
  {
    assert ThreadOk(h, s, t);
    forall u | u in s'.threads ensures ThreadOk(h, s', u) { assert ThreadOk(h, s, u); }
    forall m | m in s'.owner ensures OwnerOk(s', m) { assert OwnerOk(s, m); }
  }

  lemma LocksKeptAtGate<Q, V, R>(h: Handler<Q, V, R>, s: State<Q, V, R>, step: Step<Q>)
    requires LockInv(h, s) && Enabled(s, step) && (step.Acquire? || step.Release?)
    ensures LockInv(h, Apply(h, s, step))
  {
    var s' := Apply(h, s, step);
    assert ThreadOk(h, s, step.tid);
    forall u | u in s'.threads ensures ThreadOk(h, s', u) { assert ThreadOk(h, s, u); }
    forall m | m in s'.owner ensures OwnerOk(s', m) { assert m in s.owner ==> OwnerOk(s, m); }
  }

  lemma LocksKeptByArrive<Q, V, R>(h: Handler<Q, V, R>, s: State<Q, V, R>, step: Step<Q>)
    requires LockInv(h, s) && step.Arrive? && Enabled(s, step)
    ensures LockInv(h, Apply(h, s, step))
  {
    LocksKeptOutside(h, s, Apply(h, s, step), step.tid);
  }

  lemma MintedTableOk<Q, V, R>(s: State<Q, V, R>, s': State<Q, V, R>, n: string)
    requires TableOk(s) && n !in s.locks && s'.locks == s.locks[n := s.minted] && s'.minted == s.minted + 1
    ensures TableOk(s')
  {}

  lemma LocksKeptByFreshMutex<Q, V, R>(h: Handler<Q, V, R>, s: State<Q, V, R>, t: Tid)
    requires LockInv(h, s) && Enabled(s, TakeMutex(t))
    requires h.screen(s.threads[t].req).None? && h.name(s.threads[t].req) !in s.locks
    ensures LockInv(h, Apply(h, s, TakeMutex(t)))
  {
    var s' := Apply(h, s, TakeMutex(t));
    MintedTableOk(s, s', h.name(s.threads[t].req));
    LocksKeptOutside(h, s, s', t);
  }

  lemma LocksKeptByTakeMutex<Q, V, R>(h: Handler<Q, V, R>, s: State<Q, V, R>, step: Step<Q>)
    requires LockInv(h, s) && step.TakeMutex? && Enabled(s, step)
    ensures LockInv(h, Apply(h, s, step))
  {
    var q := s.threads[step.tid].req;
    if h.screen(q).None? && h.name(q) !in s.locks {
      LocksKeptByFreshMutex(h, s, step.tid);
    } else {
      LocksKeptOutside(h, s, Apply(h, s, step), step.tid);
    }
  }

  lemma LocksKeptByInsiders<Q, V, R>(h: Handler<Q, V, R>, s: State<Q, V, R>, step: Step<Q>)
    requires LockInv(h, s) && Enabled(s, step) && (step.Load? || step.Save?)
    ensures LockInv(h, Apply(h, s, step))
  {
    LocksKeptInside(h, s, Apply(h, s, step), step.tid);
  }

  lemma LocksKeptByDelete<Q, V, R>(h: Handler<Q, V, R>, s: State<Q, V, R>, step: Step<Q>)
    requires LockInv(h, s) && step.Delete? && Enabled(s, step)
    ensures LockInv(h, Apply(h, s, step))
  {
    var s' := Apply(h, s, step);
    forall u | u in s'.threads ensures ThreadOk(h, s', u) { assert ThreadOk(h, s, u); }
    forall m | m in s'.owner ensures OwnerOk(s', m) { assert OwnerOk(s, m); }
  }

  lemma LockInvKept<Q, V, R>(h: Handler<Q, V, R>, s: State<Q, V, R>, step: Step<Q>)
    requires LockInv(h, s) && Enabled(s, step)
    ensures LockInv(h, Apply(h, s, step))
  {
    match step
    case Arrive(_, _) => LocksKeptByArrive(h, s, step);
    case TakeMutex(_) => LocksKeptByTakeMutex(h, s, step);
    case Acquire(_) => LocksKeptAtGate(h, s, step);
    case Release(_) => LocksKeptAtGate(h, s, step);
    case Delete(_) => LocksKeptByDelete(h, s, step);
    case _ => LocksKeptByInsiders(h, s, step);
  }
}
