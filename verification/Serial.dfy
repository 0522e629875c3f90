/**
 Every interleaving of locked calls is a one-at-a-time execution.

 In the order of their effects this holds as long as every deletion is clean: it removes no entry that a call has
 loaded and is about to store back. Without deletions it holds in the order in which the calls locked.
 */
module Serial {
  import opened Text
  import opened Locking

  /** One whole call run alone. */
  function Exec<Q, V, R>(h: Handler<Q, V, R>, q: Q, store: map<string, V>): (R, map<string, V>) {
    match h.screen(q)
    case Some(r) => (r, store)
    case None =>
      match h.decide(q, Find(store, h.name(q)))
      case Put(v, r) => (r, store[h.name(q) := v])
      case Answer(r) => (r, store)
  }

  function PlayOne<Q, V, R>(h: Handler<Q, V, R>, store: map<string, V>, item: Item<Q>): map<string, V> {
    if item.Call? then Exec(h, item.req, store).1 else store - {item.name}
  }

  /** The store after running the items one at a time. */
  function Play<Q, V, R>(h: Handler<Q, V, R>, store: map<string, V>, items: seq<Item<Q>>): map<string, V> {
    if items == [] then store
    else PlayOne(h, Play(h, store, items[..|items| - 1]), items[|items| - 1])
  }

  /** The response of the i-th item in that execution. */
  function ResponseAt<Q, V, R>(h: Handler<Q, V, R>, store: map<string, V>, items: seq<Item<Q>>, i: nat): R
    requires i < |items| && items[i].Call?
  {
    Exec(h, items[i].req, Play(h, store, items[..i])).0
  }

  lemma PlayNext<Q, V, R>(h: Handler<Q, V, R>, store: map<string, V>, items: seq<Item<Q>>, item: Item<Q>)
    ensures Play(h, store, items + [item]) == PlayOne(h, Play(h, store, items), item)
    ensures forall i :: 0 <= i < |items| && items[i].Call? ==>
              ResponseAt(h, store, items + [item], i) == ResponseAt(h, store, items, i)
  {
    assert (items + [item])[..|items|] == items;
    forall i | 0 <= i < |items| && items[i].Call?
      ensures ResponseAt(h, store, items + [item], i) == ResponseAt(h, store, items, i)
    {
      assert (items + [item])[..i] == items[..i];
    }
  }

  // ------------------------------------------------------------------ order of effects

  ghost predicate LoggedOk<Q, V, R>(h: Handler<Q, V, R>, store: map<string, V>, s: State<Q, V, R>, i: nat)
    requires i < |s.log|
  {
    s.log[i].Call? ==>
      && s.log[i].tid in s.threads
      && var th := s.threads[s.log[i].tid];
         th.req == s.log[i].req && Responded(th.phase) && th.phase.response == ResponseAt(h, store, s.log, i)
  }

  ghost predicate AnsweredOk<Q, V, R>(h: Handler<Q, V, R>, s: State<Q, V, R>, t: Tid)
    requires t in s.threads
  {
    var th := s.threads[t];
    && (Responded(th.phase) ==> h.screen(th.req) == Some(th.phase.response) || Call(t, th.req) in s.log)
    && (th.phase.Loaded? ==> h.decide(th.req, th.phase.entry) == h.decide(th.req, Find(s.store, h.name(th.req))))
  }

  /** Store and responses are those of running the log one item at a time, and each call is logged at most once. */
  ghost predicate SerialInv<Q, V, R>(h: Handler<Q, V, R>, store: map<string, V>, s: State<Q, V, R>) {
    && s.store == Play(h, store, s.log)
    && (forall i :: 0 <= i < |s.log| ==> LoggedOk(h, store, s, i))
    && (forall t :: t in s.threads ==> AnsweredOk(h, s, t))
    && (forall i, j :: 0 <= i < j < |s.log| && s.log[i].Call? && s.log[j].Call? ==> s.log[i].tid != s.log[j].tid)
  }

  /**
   A deletion is clean unless it removes an entry that some call has loaded and is about to store back; and even then
   if that call would store and answer the same without the entry.
   */
  ghost predicate Clean<Q, V, R>(h: Handler<Q, V, R>, s: State<Q, V, R>, step: Step<Q>) {
    step.Delete? && step.name in s.store ==>
      forall t :: t in s.threads && s.threads[t].phase.Loaded? && h.name(s.threads[t].req) == step.name ==>
        h.decide(s.threads[t].req, None) == h.decide(s.threads[t].req, s.threads[t].phase.entry)
  }

  /** Steps that neither touch the store nor take effect. */
  lemma QuietStepKeeps<Q, V, R>(
    h: Handler<Q, V, R>, store: map<string, V>, s: State<Q, V, R>, s': State<Q, V, R>, t: Tid)
    requires SerialInv(h, store, s) && Only(s, s', t) && s'.store == s.store && s'.log == s.log
    requires t in s.threads ==> s'.threads[t].req == s.threads[t].req
    requires t in s.threads && Responded(s.threads[t].phase) ==>
               Responded(s'.threads[t].phase) && s'.threads[t].phase.response == s.threads[t].phase.response
    requires AnsweredOk(h, s', t)
    ensures SerialInv(h, store, s')
  {
    forall i | 0 <= i < |s'.log| ensures LoggedOk(h, store, s', i) { assert LoggedOk(h, store, s, i); }
    forall u | u in s'.threads ensures AnsweredOk(h, s', u) { assert u == t || AnsweredOk(h, s, u); }
  }

  /** A step in which thread `t` takes effect as its call, run alone on the present store, would. */
  lemma EffectKeeps<Q, V, R>(h: Handler<Q, V, R>, store: map<string, V>, s: State<Q, V, R>, s': State<Q, V, R>, t: Tid)
    requires LockInv(h, s) && SerialInv(h, store, s)
    requires Only(s, s', t) && t in s.threads && (s.threads[t].phase.Entered? || s.threads[t].phase.Loaded?)
    requires s'.threads[t].req == s.threads[t].req && s'.threads[t].phase.Leaving?
    requires s'.log == s.log + [Call(t, s.threads[t].req)]
    requires (s'.threads[t].phase.response, s'.store) == Exec(h, s.threads[t].req, s.store)
    ensures SerialInv(h, store, s')
  {
    var item := Call(t, s.threads[t].req);
    PlayNext(h, store, s.log, item);
    forall i | 0 <= i < |s'.log| ensures LoggedOk(h, store, s', i) {
      if i < |s.log| { assert LoggedOk(h, store, s, i); } else { assert s'.log[..i] == s.log; }
    }
    OthersUndisturbed(h, store, s, s', t);
    forall i, j | 0 <= i < j < |s'.log| && s'.log[i].Call? && s'.log[j].Call?
      ensures s'.log[i].tid != s'.log[j].tid
    {
      assert LoggedOk(h, store, s, i);
    }
  }

  lemma OthersUndisturbed<Q, V, R>(
    h: Handler<Q, V, R>, store: map<string, V>, s: State<Q, V, R>, s': State<Q, V, R>, t: Tid)
    requires LockInv(h, s) && SerialInv(h, store, s)
    requires Only(s, s', t) && t in s.threads && (s.threads[t].phase.Entered? || s.threads[t].phase.Loaded?)
    requires s'.threads[t].req == s.threads[t].req && s'.threads[t].phase.Leaving?
    requires s'.log == s.log + [Call(t, s.threads[t].req)]
    requires s'.store == Exec(h, s.threads[t].req, s.store).1
    ensures forall u :: u in s'.threads ==> AnsweredOk(h, s', u)
  {
    forall u | u in s'.threads ensures AnsweredOk(h, s', u) {
      if u != t {
        assert AnsweredOk(h, s, u);
        if s.threads[u].phase.Loaded? { MutualExclusion(h, s, t, u); }
      } else {
        assert s'.log[|s.log|] == Call(t, s.threads[t].req);
      }
    }
  }

  lemma LoadKeepsSerial<Q, V, R>(h: Handler<Q, V, R>, store: map<string, V>, s: State<Q, V, R>, step: Step<Q>)
    requires LockInv(h, s) && SerialInv(h, store, s) && step.Load? && Enabled(s, step)
    ensures SerialInv(h, store, Apply(h, s, step))
  {
    var t := step.tid;
    var s' := Apply(h, s, step);
    assert ThreadOk(h, s, t);
    if h.decide(s.threads[t].req, Find(s.store, h.name(s.threads[t].req))).Answer? {
      EffectKeeps(h, store, s, s', t);
    } else {
      QuietStepKeeps(h, store, s, s', t);
    }
  }

  lemma SaveKeepsSerial<Q, V, R>(h: Handler<Q, V, R>, store: map<string, V>, s: State<Q, V, R>, step: Step<Q>)
    requires LockInv(h, s) && SerialInv(h, store, s) && step.Save? && Enabled(s, step)
    ensures SerialInv(h, store, Apply(h, s, step))
  {
    var t := step.tid;
    assert ThreadOk(h, s, t) && AnsweredOk(h, s, t);
    EffectKeeps(h, store, s, Apply(h, s, step), t);
  }

  lemma DeleteKeepsLog<Q, V, R>(h: Handler<Q, V, R>, store: map<string, V>, s: State<Q, V, R>, step: Step<Q>)
    requires SerialInv(h, store, s) && step.Delete? && Enabled(s, step)
    ensures var s' := Apply(h, s, step); forall i :: 0 <= i < |s'.log| ==> LoggedOk(h, store, s', i)
  {
    var s' := Apply(h, s, step);
    PlayNext(h, store, s.log, Erase(step.name));
    forall i | 0 <= i < |s'.log| ensures LoggedOk(h, store, s', i) {
      if i < |s.log| { assert LoggedOk(h, store, s, i); }
    }
  }

  lemma DeleteKeepsSerial<Q, V, R>(h: Handler<Q, V, R>, store: map<string, V>, s: State<Q, V, R>, step: Step<Q>)
    requires SerialInv(h, store, s) && step.Delete? && Enabled(s, step) && Clean(h, s, step)
    ensures SerialInv(h, store, Apply(h, s, step))
  {
    var s' := Apply(h, s, step);
    PlayNext(h, store, s.log, Erase(step.name));
    DeleteKeepsLog(h, store, s, step);
    forall u | u in s'.threads ensures AnsweredOk(h, s', u) { assert AnsweredOk(h, s, u); }
  }

  lemma SerialInvKept<Q, V, R>(h: Handler<Q, V, R>, store: map<string, V>, s: State<Q, V, R>, step: Step<Q>)
    requires LockInv(h, s) && SerialInv(h, store, s) && Enabled(s, step) && Clean(h, s, step)
    ensures SerialInv(h, store, Apply(h, s, step))
  {
    if step.Load? {
      LoadKeepsSerial(h, store, s, step);
    } else if step.Save? {
      SaveKeepsSerial(h, store, s, step);
    } else if step.Delete? {
      DeleteKeepsSerial(h, store, s, step);
    } else {
      assert step.tid in s.threads ==> AnsweredOk(h, s, step.tid);
      QuietStepKeeps(h, store, s, Apply(h, s, step), step.tid);
    }
  }

  // ------------------------------------------------------------------ order of locking

  predicate On<Q, V, R>(h: Handler<Q, V, R>, item: Item<Q>, n: string) {
    item.Call? && h.name(item.req) == n
  }

  /** The calls on one name, in order. */
  function Project<Q, V, R>(h: Handler<Q, V, R>, items: seq<Item<Q>>, n: string): seq<Item<Q>> {
    if items == [] then []
    else
      var rest := Project(h, items[..|items| - 1], n);
      var last := items[|items| - 1];
      if On(h, last, n) then rest + [last] else rest
  }

  lemma ProjectNext<Q, V, R>(h: Handler<Q, V, R>, items: seq<Item<Q>>, item: Item<Q>, n: string)
    ensures Project(h, items + [item], n) == Project(h, items, n) + (if On(h, item, n) then [item] else [])
  {
    assert (items + [item])[..|items|] == items;
  }

  predicate Pending<Q, V, R>(h: Handler<Q, V, R>, s: State<Q, V, R>, t: Tid, n: string) {
    && t in s.threads && (s.threads[t].phase.Entered? || s.threads[t].phase.Loaded?)
    && h.name(s.threads[t].req) == n
  }

  /** On each name, calls take effect in the order they locked; at most the last to lock has yet to do so. */
  ghost predicate OrderOn<Q, V, R>(h: Handler<Q, V, R>, s: State<Q, V, R>, n: string) {
    && (forall t :: Pending(h, s, t, n) ==>
          Project(h, s.acquired, n) == Project(h, s.log, n) + [Call(t, s.threads[t].req)])
    && ((forall t :: !Pending(h, s, t, n)) ==> Project(h, s.acquired, n) == Project(h, s.log, n))
  }

  ghost predicate OrderInv<Q, V, R>(h: Handler<Q, V, R>, s: State<Q, V, R>) {
    forall n :: OrderOn(h, s, n)
  }

  lemma AcquireKeepsOrder<Q, V, R>(h: Handler<Q, V, R>, s: State<Q, V, R>, step: Step<Q>, n: string)
    requires LockInv(h, s) && OrderInv(h, s) && step.Acquire? && Enabled(s, step)
    ensures OrderOn(h, Apply(h, s, step), n)
  {
    var t := step.tid;
    var s' := Apply(h, s, step);
    var q := s.threads[t].req;
    assert OrderOn(h, s, n);
    assert ThreadOk(h, s, t);
    ProjectNext(h, s.acquired, Call(t, q), n);
    if h.name(q) == n {
      assert Pending(h, s', t, n);
      forall u ensures !Pending(h, s, u, n) { assert u in s.threads ==> ThreadOk(h, s, u); }
      forall u | Pending(h, s', u, n) ensures u == t { assert u != t ==> Pending(h, s, u, n); }
    } else {
      assert forall u :: Pending(h, s', u, n) <==> Pending(h, s, u, n);
    }
  }

  lemma EffectKeepsOrder<Q, V, R>(h: Handler<Q, V, R>, s: State<Q, V, R>, s': State<Q, V, R>, t: Tid, n: string)
    requires LockInv(h, s) && OrderInv(h, s) && Only(s, s', t)
    requires t in s.threads && (s.threads[t].phase.Entered? || s.threads[t].phase.Loaded?)
    requires s'.threads[t].req == s.threads[t].req && s'.threads[t].phase.Leaving?
    requires s'.acquired == s.acquired && s'.log == s.log + [Call(t, s.threads[t].req)]
    ensures OrderOn(h, s', n)
  {
    var q := s.threads[t].req;
    assert OrderOn(h, s, n);
    ProjectNext(h, s.log, Call(t, q), n);
    if h.name(q) == n {
      assert Pending(h, s, t, n);
      forall u ensures !Pending(h, s', u, n) {
        if u in s.threads && u != t && Pending(h, s, u, n) { MutualExclusion(h, s, t, u); }
      }
    } else {
      assert forall u :: Pending(h, s', u, n) <==> Pending(h, s, u, n);
    }
  }

  lemma QuietKeepsOrder<Q, V, R>(h: Handler<Q, V, R>, s: State<Q, V, R>, s': State<Q, V, R>, n: string)
    requires OrderOn(h, s, n) && s'.acquired == s.acquired && s'.log == s.log
    requires forall u :: Pending(h, s', u, n) <==> Pending(h, s, u, n)
    requires forall u :: u in s.threads ==> u in s'.threads && s'.threads[u].req == s.threads[u].req
    ensures OrderOn(h, s', n)
  {
  }

  lemma DeleteKeepsOrder<Q, V, R>(h: Handler<Q, V, R>, s: State<Q, V, R>, step: Step<Q>, n: string)
    requires OrderOn(h, s, n) && step.Delete? && Enabled(s, step)
    ensures OrderOn(h, Apply(h, s, step), n)
  {
    ProjectNext(h, s.log, Erase(step.name), n);
    assert forall u :: Pending(h, Apply(h, s, step), u, n) <==> Pending(h, s, u, n);
  }

  lemma EffectStepKeepsOrder<Q, V, R>(h: Handler<Q, V, R>, s: State<Q, V, R>, step: Step<Q>, n: string)
    requires LockInv(h, s) && OrderInv(h, s) && Enabled(s, step)
    requires step.Save? || (step.Load? && Apply(h, s, step).threads[step.tid].phase.Leaving?)
    ensures OrderOn(h, Apply(h, s, step), n)
  {
    EffectKeepsOrder(h, s, Apply(h, s, step), step.tid, n);
  }

  lemma OtherStepKeepsOrder<Q, V, R>(h: Handler<Q, V, R>, s: State<Q, V, R>, step: Step<Q>, n: string)
    requires OrderOn(h, s, n) && Enabled(s, step) && !step.Acquire? && !step.Save? && !step.Delete?
    requires step.Load? ==> !Apply(h, s, step).threads[step.tid].phase.Leaving?
    ensures OrderOn(h, Apply(h, s, step), n)
  {
    var s' := Apply(h, s, step);
    forall u ensures Pending(h, s', u, n) <==> Pending(h, s, u, n) { OtherStepPending(h, s, step, u, n); }
    QuietKeepsOrder(h, s, s', n);
  }

  lemma OtherStepPending<Q, V, R>(h: Handler<Q, V, R>, s: State<Q, V, R>, step: Step<Q>, u: Tid, n: string)
    requires Enabled(s, step) && !step.Acquire? && !step.Save? && !step.Delete?
    requires step.Load? ==> !Apply(h, s, step).threads[step.tid].phase.Leaving?
    ensures Pending(h, Apply(h, s, step), u, n) <==> Pending(h, s, u, n)
  {}

  lemma OrderOnKept<Q, V, R>(h: Handler<Q, V, R>, s: State<Q, V, R>, step: Step<Q>, n: string)
    requires LockInv(h, s) && OrderInv(h, s) && Enabled(s, step)
    ensures OrderOn(h, Apply(h, s, step), n)
  {
    assert OrderOn(h, s, n);
    if step.Acquire? {
      AcquireKeepsOrder(h, s, step, n);
    } else if step.Delete? {
      DeleteKeepsOrder(h, s, step, n);
    } else if step.Save? || (step.Load? && Apply(h, s, step).threads[step.tid].phase.Leaving?) {
      EffectStepKeepsOrder(h, s, step, n);
    } else {
      OtherStepKeepsOrder(h, s, step, n);
    }
  }

  lemma OrderInvKept<Q, V, R>(h: Handler<Q, V, R>, s: State<Q, V, R>, step: Step<Q>)
    requires LockInv(h, s) && OrderInv(h, s) && Enabled(s, step)
    ensures OrderInv(h, Apply(h, s, step))
  {
    forall n ensures OrderOn(h, Apply(h, s, step), n) { OrderOnKept(h, s, step, n); }
  }

  function Restrict<V>(store: map<string, V>, n: string): map<string, V> {
    if n in store then map[n := store[n]] else map[]
  }

  /** A call sees and touches nothing but its own name. */
  lemma ExecLocal<Q, V, R>(h: Handler<Q, V, R>, q: Q, store: map<string, V>, n: string)
    ensures h.name(q) == n ==> Exec(h, q, store).0 == Exec(h, q, Restrict(store, n)).0
    ensures h.name(q) == n ==> Restrict(Exec(h, q, store).1, n) == Exec(h, q, Restrict(store, n)).1
    ensures h.name(q) != n ==> Restrict(Exec(h, q, store).1, n) == Restrict(store, n)
  {
    assert Find(store, n) == Find(Restrict(store, n), n);
  }

  /** What a deletion-free execution does to one name is what the calls on that name alone do to it. */
  lemma {:induction false} PlayProject<Q, V, R>(
    h: Handler<Q, V, R>, store: map<string, V>, items: seq<Item<Q>>, n: string)
    requires forall i :: 0 <= i < |items| ==> items[i].Call?
    ensures Restrict(Play(h, store, items), n) == Play(h, Restrict(store, n), Project(h, items, n))
  {
    if items != [] {
      var before := items[..|items| - 1];
      var last := items[|items| - 1];
      assert items == before + [last];
      PlayProject(h, store, before, n);
      ExecLocal(h, last.req, Play(h, store, before), n);
      ProjectNext(h, before, last, n);
      if On(h, last, n) { PlayNext(h, Restrict(store, n), Project(h, before, n), last); }
    }
  }

  /** Where the i-th item sits in the projection on its own name. */
  lemma {:induction false} ProjectPosition<Q, V, R>(h: Handler<Q, V, R>, items: seq<Item<Q>>, i: nat, n: string)
    requires i < |items| && On(h, items[i], n)
    ensures var p := Project(h, items[..i], n);
            p + [items[i]] <= Project(h, items, n)
  {
    if i == |items| - 1 {
      assert items == items[..i] + [items[i]];
      ProjectNext(h, items[..i], items[i], n);
    } else {
      var before := items[..|items| - 1];
      assert before[..i] == items[..i];
      ProjectPosition(h, before, i, n);
    }
  }

  lemma {:induction false} ProjectDistinct<Q, V, R>(h: Handler<Q, V, R>, items: seq<Item<Q>>, n: string)
    requires forall i, j :: 0 <= i < j < |items| && items[i].Call? && items[j].Call? ==> items[i].tid != items[j].tid
    ensures forall x :: x in Project(h, items, n) ==> x in items && x.Call?
    ensures forall i, j :: 0 <= i < j < |Project(h, items, n)| ==>
              Project(h, items, n)[i].tid != Project(h, items, n)[j].tid
  {
    if items != [] {
      var before := items[..|items| - 1];
      ProjectDistinct(h, before, n);
      var p := Project(h, before, n);
      forall k | 0 <= k < |p| ensures p[k].Call? && (items[|items| - 1].Call? ==> p[k].tid != items[|items| - 1].tid) {
        assert p[k] in p && p[k] in before;
      }
    }
  }

  /** Equal projections mean equal executions: the stores agree, and so does the response of any shared call. */
  lemma SameProjectionsSameStore<Q, V, R>(h: Handler<Q, V, R>, store: map<string, V>, a: seq<Item<Q>>, b: seq<Item<Q>>)
    requires forall i :: 0 <= i < |a| ==> a[i].Call?
    requires forall i :: 0 <= i < |b| ==> b[i].Call?
    requires forall n :: Project(h, a, n) == Project(h, b, n)
    ensures Play(h, store, a) == Play(h, store, b)
  {
    var x, y := Play(h, store, a), Play(h, store, b);
    forall n ensures Find(x, n) == Find(y, n) {
      PlayProject(h, store, a, n);
      PlayProject(h, store, b, n);
      assert Project(h, a, n) == Project(h, b, n);
      assert Restrict(x, n) == Restrict(y, n);
      assert Find(x, n) == Find(Restrict(x, n), n) && Find(y, n) == Find(Restrict(y, n), n);
    }
    forall n ensures n in x <==> n in y { assert Find(x, n) == Find(y, n); }
    forall n | n in x ensures x[n] == y[n] { assert Find(x, n) == Find(y, n); }
  }

  lemma SameProjectionsSameResponse<Q, V, R>(
    h: Handler<Q, V, R>, store: map<string, V>, a: seq<Item<Q>>, i: nat, b: seq<Item<Q>>, j: nat)
    requires forall k :: 0 <= k < |a| ==> a[k].Call?
    requires forall k :: 0 <= k < |b| ==> b[k].Call?
    requires forall k, l :: 0 <= k < l < |a| && a[k].Call? && a[l].Call? ==> a[k].tid != a[l].tid
    requires i < |a| && j < |b| && a[i] == b[j]
    requires Project(h, a, h.name(a[i].req)) == Project(h, b, h.name(a[i].req))
    ensures ResponseAt(h, store, a, i) == ResponseAt(h, store, b, j)
  {
    var n := h.name(a[i].req);
    ProjectPosition(h, a, i, n);
    ProjectPosition(h, b, j, n);
    ProjectDistinct(h, a, n);
    var pa, pb := Project(h, a[..i], n), Project(h, b[..j], n);
    var p := Project(h, a, n);
    assert p[|pa|] == a[i] && p[|pb|] == a[i];
    assert |pa| == |pb|;
    assert pa == p[..|pa|] && pb == p[..|pb|];
    PlayProject(h, store, a[..i], n);
    PlayProject(h, store, b[..j], n);
    ExecLocal(h, a[i].req, Play(h, store, a[..i]), n);
    ExecLocal(h, b[j].req, Play(h, store, b[..j]), n);
  }
}
