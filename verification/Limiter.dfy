/**
 The table of per-principal rate limiters.

 A table maps a key to a limiter and the time it was last seen. `get` touches or inserts, evicting an entry that was
 seen least recently when the table is full; `sweep` drops idle entries. The order in which a Go map is visited is
 arbitrary, so eviction is a relation: any entry with the least time may go, and the empty key is never removed.
 */
module Limiter {
  datatype Slot<L> = Slot(limiter: L, lastSeen: int)

  type Table<L> = map<string, Slot<L>>

  predicate Oldest<L>(t: Table<L>, k: string) {
    k in t && forall j :: j in t ==> t[k].lastSeen <= t[j].lastSeen
  }

  function Without<L>(t: Table<L>, k: string): Table<L> {
    if k == "" then t else t - {k}
  }

  /** The table with room for one more entry: when it is full, the given entry goes. */
  function Room<L>(t: Table<L>, cap: int, k: string): Table<L> {
    if |t| >= cap && t != map[] then Without(t, k) else t
  }

  /** One `get`: `limiter` is the one returned, new when the key is not in the table. */
  ghost predicate Got<L>(t: Table<L>, cap: int, key: string, now: int, limiter: L, t': Table<L>) {
    if key in t then limiter == t[key].limiter && t' == t[key := Slot(limiter, now)]
    else exists k :: (|t| >= cap && t != map[] ==> Oldest(t, k)) && t' == Room(t, cap, k)[key := Slot(limiter, now)]
  }

  function Swept<L>(t: Table<L>, cutoff: int): Table<L> {
    map k | k in t && t[k].lastSeen >= cutoff :: t[k]
  }

  ghost predicate LimitersDistinct<L>(t: Table<L>) {
    forall j, k :: j in t && k in t && t[j].limiter == t[k].limiter ==> j == k
  }

  // ------------------------------------------------------------------ bound and identity

  /** Whatever the clock says, a `get` on a non-empty key keeps the table within its bound. */
  lemma BoundKept<L>(t: Table<L>, cap: int, key: string, now: int, limiter: L, t': Table<L>)
    requires cap >= 1 && |t| <= cap && "" !in t && key != "" && Got(t, cap, key, now, limiter, t')
    ensures |t'| <= cap && "" !in t' && key in t' && t'[key] == Slot(limiter, now)
  {
    if key in t {
      assert t'.Keys == t.Keys;
    } else {
      var k :| (|t| >= cap && t != map[] ==> Oldest(t, k)) && t' == Room(t, cap, k)[key := Slot(limiter, now)];
      RoomBelow(t, cap, k);
      InsertedOne(Room(t, cap, k), key, Slot(limiter, now));
    }
  }

  lemma RoomBelow<L>(t: Table<L>, cap: int, k: string)
    requires cap >= 1 && |t| <= cap && "" !in t && (|t| >= cap && t != map[] ==> Oldest(t, k))
    ensures |Room(t, cap, k)| < cap && "" !in Room(t, cap, k)
  {
    if |t| >= cap { RoomMade(t, k); }
  }

  lemma InsertedOne<L>(t: Table<L>, key: string, slot: Slot<L>)
    ensures |t[key := slot]| <= |t| + 1
  {
    assert t[key := slot].Keys == t.Keys + {key};
  }

  lemma RoomMade<L>(t: Table<L>, k: string)
    requires "" !in t && (t != map[] ==> Oldest(t, k))
    ensures t != map[] ==> |Without(t, k)| == |t| - 1
  {
    if t != map[] { assert Without(t, k).Keys == t.Keys - {k}; }
  }

  /**
   The empty key is why. An insertion into a full table can go over the bound exactly when the empty key is an oldest
   entry; it must, whichever entry is visited first, exactly when no other is; and it never goes over by more than one.
   */
  lemma EmptyKeyOverflows<L(!new)>(t: Table<L>, cap: int, key: string, now: int, limiter: L)
    requires cap >= 1 && |t| == cap && key !in t
    ensures (exists t' :: Got(t, cap, key, now, limiter, t') && |t'| > cap) <==> Oldest(t, "")
    ensures (forall t' :: Got(t, cap, key, now, limiter, t') ==> |t'| > cap) <==> (forall k :: Oldest(t, k) ==> k == "")
    ensures forall t' :: Got(t, cap, key, now, limiter, t') ==> cap <= |t'| <= cap + 1
  {
    forall t' { GotInserts(t, cap, key, now, limiter, t'); }
    forall k | Oldest(t, k) ensures |Inserted(t, k, key, now, limiter)| == if k == "" then cap + 1 else cap {
      InsertedSize(t, k, key, now, limiter);
    }
    var k := OldestExists(t);
    assert Got(t, cap, key, now, limiter, Inserted(t, k, key, now, limiter));
    assert Oldest(t, "") ==> Got(t, cap, key, now, limiter, Inserted(t, "", key, now, limiter));
  }

  lemma GotInserts<L>(t: Table<L>, cap: int, key: string, now: int, limiter: L, t': Table<L>)
    requires cap >= 1 && |t| == cap && key !in t
    ensures Got(t, cap, key, now, limiter, t') <==> exists k :: Oldest(t, k) && t' == Inserted(t, k, key, now, limiter)
  {
    assert t != map[];
    forall k ensures Room(t, cap, k) == Without(t, k) {}
    if k :| Oldest(t, k) && t' == Inserted(t, k, key, now, limiter) {
      assert t' == Room(t, cap, k)[key := Slot(limiter, now)];
    }
  }

  /** The table after the eviction of an entry and the insertion of another. */
  function Inserted<L>(t: Table<L>, k: string, key: string, now: int, limiter: L): Table<L> {
    Without(t, k)[key := Slot(limiter, now)]
  }

  lemma InsertedSize<L>(t: Table<L>, k: string, key: string, now: int, limiter: L)
    requires k in t && key !in t
    ensures |Inserted(t, k, key, now, limiter)| == if k == "" then |t| + 1 else |t|
  {
    assert Inserted(t, k, key, now, limiter).Keys == Without(t, k).Keys + {key};
    if k != "" { assert Without(t, k).Keys == t.Keys - {k}; }
  }

  lemma {:induction false} OldestExists<L>(t: Table<L>) returns (k: string)
    requires t != map[]
    ensures Oldest(t, k)
    decreases |t|
  {
    k :| k in t;
    var rest := t - {k};
    assert rest.Keys == t.Keys - {k};
    assert forall i :: i in t && i != k ==> i in rest.Keys && rest[i] == t[i];
    if rest != map[] {
      var j := OldestExists(rest);
      if t[j].lastSeen <= t[k].lastSeen { k := j; }
    }
  }

  /** A table for one entry that holds two: the empty key is there first and is never evicted. */
  lemma EmptyKeyStays<L>(one: L, other: L)
    requires one != other
    ensures var full := map["" := Slot(one, 0)];
            var over := full["a" := Slot(other, 1)];
            IsRun([map[], full, over], [Op.Get("", 0, one), Op.Get("a", 1, other)], 1) && |over| == 2
  {
    var full := map["" := Slot(one, 0)];
    var over := full["a" := Slot(other, 1)];
    assert Got(map[], 1, "", 0, one, full) by { assert Room(map[], 1, "")["" := Slot(one, 0)] == full; }
    assert Got(full, 1, "a", 1, other, over) by { assert Oldest(full, "") && Room(full, 1, "") == full; }
    assert over.Keys == {"", "a"};
  }

  /** A limiter made for a new key is none of those in the table. */
  predicate Unused<L(==)>(t: Table<L>, key: string, limiter: L) {
    key !in t ==> forall k :: k in t ==> t[k].limiter != limiter
  }

  /** Every key that stays keeps its slot, but for the time of the key just seen; no other key comes in. */
  lemma SlotsKept<L>(t: Table<L>, cap: int, key: string, now: int, limiter: L, t': Table<L>)
    requires Got(t, cap, key, now, limiter, t')
    ensures key in t' && t'[key].limiter == limiter
    ensures forall k :: k in t' && k != key ==> k in t && t'[k] == t[k]
  {
    if key !in t {
      var v :| (|t| >= cap && t != map[] ==> Oldest(t, v)) && t' == Room(t, cap, v)[key := Slot(limiter, now)];
      assert forall k :: k in Room(t, cap, v) ==> k in t && Room(t, cap, v)[k] == t[k];
    }
  }

  /** Keys never share a limiter, and every key that stays keeps its own. */
  lemma LimitersKept<L>(t: Table<L>, cap: int, key: string, now: int, limiter: L, t': Table<L>)
    requires LimitersDistinct(t) && Got(t, cap, key, now, limiter, t') && Unused(t, key, limiter)
    ensures LimitersDistinct(t')
    ensures forall k :: k in t && k in t' ==> t'[k].limiter == t[k].limiter
  {
    SlotsKept(t, cap, key, now, limiter, t');
  }

  // ------------------------------------------------------------------ the recency list

  datatype Seen = Seen(key: string, at: int)

  function Forget(l: seq<Seen>, key: string): (r: seq<Seen>)
    ensures |r| <= |l|
    ensures forall x :: x in r <==> x in l && x.key != key
  {
    if l == [] then []
    else if l[0].key == key then Forget(l[1..], key)
    else [l[0]] + Forget(l[1..], key)
  }

  function Take(l: seq<Seen>, n: nat): seq<Seen> { if |l| <= n then l else l[..n] }

  /** Move to front, then cut off at the capacity. */
  function Touch(l: seq<Seen>, key: string, now: int, cap: nat): seq<Seen> {
    Take([Seen(key, now)] + Forget(l, key), cap)
  }

  /** Cut off the idle tail. */
  function Cut(l: seq<Seen>, cutoff: int): (r: seq<Seen>)
    ensures r <= l
  {
    if l == [] || l[0].at < cutoff then [] else [l[0]] + Cut(l[1..], cutoff)
  }

  predicate Below(l: seq<Seen>, time: int) {
    forall x :: x in l ==> x.at < time
  }

  /** Most recent first, strictly. */
  predicate Falling(l: seq<Seen>) {
    l == [] || (Below(l[1..], l[0].at) && Falling(l[1..]))
  }

  function Keys(l: seq<Seen>): set<string> { set x | x in l :: x.key }

  predicate Agrees<L>(t: Table<L>, l: seq<Seen>) {
    forall x :: x in l ==> x.key in t && t[x.key].lastSeen == x.at
  }

  /** The table holds exactly what the list holds. */
  ghost predicate Refines<L>(t: Table<L>, l: seq<Seen>) {
    Falling(l) && t.Keys == Keys(l) && Agrees(t, l)
  }

  lemma KeysCons(x: Seen, l: seq<Seen>)
    ensures Keys([x] + l) == {x.key} + Keys(l)
  {
    assert forall y :: y in [x] + l <==> y == x || y in l;
  }

  lemma {:induction false} ForgetFalling(l: seq<Seen>, key: string)
    requires Falling(l)
    ensures Falling(Forget(l, key))
    ensures key !in Keys(l) ==> Forget(l, key) == l
  {
    if l != [] {
      var x, rest := l[0], l[1..];
      ForgetFalling(rest, key);
      KeysCons(x, rest);
      assert l == [x] + rest;
      if x.key != key { assert ([x] + Forget(rest, key))[1..] == Forget(rest, key); }
    }
  }

  /** The head's key occurs nowhere else, so the tail refines the rest of the table. */
  lemma RefinesTail<L>(t: Table<L>, l: seq<Seen>)
    requires l != [] && Refines(t, l)
    ensures l[0].key in t && t[l[0].key].lastSeen == l[0].at
    ensures l[0].key !in Keys(l[1..]) && Refines(t - {l[0].key}, l[1..])
  {
    var x, rest := l[0], l[1..];
    assert l == [x] + rest;
    KeysCons(x, rest);
    assert x in l;
    forall y | y in rest ensures y.key != x.key { assert y in l; }
    assert (t - {x.key}).Keys == Keys(rest);
  }

  /** A refined table has one entry per list item. */
  lemma {:induction false} RefinesSize<L>(t: Table<L>, l: seq<Seen>)
    requires Refines(t, l)
    ensures |t| == |l|
    decreases l
  {
    if l == [] {
      assert t.Keys == {};
    } else {
      RefinesTail(t, l);
      RefinesSize(t - {l[0].key}, l[1..]);
      assert (t - {l[0].key}).Keys == t.Keys - {l[0].key};
    }
  }

  lemma InsertFront<L>(t: Table<L>, l: seq<Seen>, key: string, now: int, limiter: L)
    requires Refines(t, l) && key !in t && Below(l, now)
    ensures Refines(t[key := Slot(limiter, now)], [Seen(key, now)] + l)
  {
    var l' := [Seen(key, now)] + l;
    KeysCons(Seen(key, now), l);
    assert l'[1..] == l;
    var t' := t[key := Slot(limiter, now)];
    forall x | x in l' ensures x.key in t' && t'[x.key].lastSeen == x.at {
      if x in l { assert x.key in t; }
    }
  }

  /** With strictly falling times the one oldest entry is the last of the list. */
  lemma {:induction false} EvictLast<L>(t: Table<L>, l: seq<Seen>, k: string)
    requires Refines(t, l) && "" !in t && Oldest(t, k)
    ensures l != [] && Refines(t - {k}, l[..|l| - 1])
    decreases l
  {
    assert k in Keys(l);
    RefinesTail(t, l);
    var x, rest := l[0], l[1..];
    if rest == [] {
      KeysCons(x, rest);
      assert l == [x] + rest && l[..0] == [];
      assert (t - {k}).Keys == {};
    } else {
      assert rest[0] in rest && rest[0] in l;
      assert rest[0].key in t && t[rest[0].key].lastSeen < t[x.key].lastSeen;
      EvictLast(t - {x.key}, rest, k);
      var kept := rest[..|rest| - 1];
      assert Below(kept, x.at);
      PutBack(t, x, kept, k);
      assert [x] + kept == l[..|l| - 1];
    }
  }

  lemma PutBack<L>(t: Table<L>, x: Seen, kept: seq<Seen>, k: string)
    requires x.key in t && t[x.key].lastSeen == x.at && k != x.key
    requires Refines(t - {x.key} - {k}, kept) && Below(kept, x.at)
    ensures Refines(t - {k}, [x] + kept)
  {
    var mid := t - {x.key} - {k};
    InsertFront(mid, kept, x.key, x.at, t[x.key].limiter);
    assert mid[x.key := t[x.key]] == t - {k};
  }

  lemma ForgetRefines<L>(t: Table<L>, l: seq<Seen>, key: string)
    requires Refines(t, l)
    ensures Refines(t - {key}, Forget(l, key))
  {
    ForgetFalling(l, key);
    var rest := Forget(l, key);
    forall k ensures k in Keys(rest) <==> k in Keys(l) && k != key {
      if k in Keys(l) && k != key {
        var x :| x in l && x.key == k;
        assert x in rest;
      }
    }
    assert (t - {key}).Keys == Keys(rest);
  }

  /** With a clock ahead of every entry, a `get` is a move to the front of the list. */
  lemma GetRefines<L>(t: Table<L>, l: seq<Seen>, cap: nat, key: string, now: int, limiter: L, t': Table<L>)
    requires cap >= 1 && Refines(t, l) && |l| <= cap && "" !in t && key != "" && Below(l, now)
    requires Got(t, cap, key, now, limiter, t')
    ensures Refines(t', Touch(l, key, now, cap)) && |Touch(l, key, now, cap)| <= cap
  {
    RefinesSize(t, l);
    if key in t {
      TouchRefines(t, l, cap, key, now, limiter);
    } else {
      ForgetFalling(l, key);
      InsertRefines(t, l, cap, key, now, limiter, t');
    }
  }

  lemma TouchRefines<L>(t: Table<L>, l: seq<Seen>, cap: nat, key: string, now: int, limiter: L)
    requires Refines(t, l) && |l| <= cap && |t| == |l| && key in t && Below(l, now)
    ensures Refines(t[key := Slot(limiter, now)], Touch(l, key, now, cap))
  {
    var u, rest := t - {key}, Forget(l, key);
    ForgetRefines(t, l, key);
    RefinesSize(u, rest);
    assert u.Keys == t.Keys - {key};
    assert Below(rest, now);
    InsertFront(u, rest, key, now, limiter);
    assert u[key := Slot(limiter, now)] == t[key := Slot(limiter, now)];
  }

  lemma InsertRefines<L>(t: Table<L>, l: seq<Seen>, cap: nat, key: string, now: int, limiter: L, t': Table<L>)
    requires cap >= 1 && Refines(t, l) && |l| <= cap && |t| == |l| && "" !in t && Below(l, now)
    requires key !in t && Got(t, cap, key, now, limiter, t')
    ensures Refines(t', Take([Seen(key, now)] + l, cap))
  {
    var k :| (|t| >= cap && t != map[] ==> Oldest(t, k)) && t' == Room(t, cap, k)[key := Slot(limiter, now)];
    if |t| < cap {
      InsertFront(t, l, key, now, limiter);
    } else {
      assert t != map[];
      InsertFullRefines(t, l, cap, k, key, now, limiter);
    }
  }

  lemma InsertFullRefines<L>(t: Table<L>, l: seq<Seen>, cap: nat, k: string, key: string, now: int, limiter: L)
    requires cap >= 1 && Refines(t, l) && |l| == cap && |t| == |l| && "" !in t && Below(l, now)
    requires key !in t && Oldest(t, k)
    ensures Refines(Without(t, k)[key := Slot(limiter, now)], Take([Seen(key, now)] + l, cap))
  {
    EvictLast(t, l, k);
    var kept := l[..|l| - 1];
    assert Below(kept, now);
    InsertFront(t - {k}, kept, key, now, limiter);
    assert Take([Seen(key, now)] + l, cap) == [Seen(key, now)] + kept;
  }

  lemma {:induction false} CutExact(l: seq<Seen>, cutoff: int)
    requires Falling(l)
    ensures forall x :: x in Cut(l, cutoff) <==> x in l && x.at >= cutoff
    ensures Falling(Cut(l, cutoff))
  {
    if l != [] {
      var rest := l[1..];
      assert l == [l[0]] + rest;
      CutExact(rest, cutoff);
      if l[0].at >= cutoff { assert ([l[0]] + Cut(rest, cutoff))[1..] == Cut(rest, cutoff); }
    }
  }

  /** A sweep cuts a suffix off the list. */
  lemma SweepRefines<L>(t: Table<L>, l: seq<Seen>, cutoff: int)
    requires Refines(t, l)
    ensures Refines(Swept(t, cutoff), Cut(l, cutoff)) && Cut(l, cutoff) <= l
  {
    CutExact(l, cutoff);
    var r := Cut(l, cutoff);
    forall k ensures k in Swept(t, cutoff) <==> k in Keys(r) {
      if k in Swept(t, cutoff) {
        assert k in Keys(l);
        var x :| x in l && x.key == k;
        assert x in r;
      }
    }
    assert Swept(t, cutoff).Keys == Keys(r);
  }

  // ------------------------------------------------------------------ runs

  /** A `get` with the clock reading it took and the limiter it returned, or a sweep. */
  datatype Op<L> = Get(key: string, now: int, limiter: L) | Sweep(cutoff: int)

  /** The recency list after a run of operations. */
  function Recency<L>(ops: seq<Op<L>>, cap: nat): seq<Seen> {
    if ops == [] then []
    else
      var before := Recency(ops[..|ops| - 1], cap);
      match ops[|ops| - 1]
      case Get(key, now, _) => Touch(before, key, now, cap)
      case Sweep(cutoff) => Cut(before, cutoff)
  }

  ghost predicate OpStep<L>(t: Table<L>, cap: int, op: Op<L>, t': Table<L>) {
    match op
    case Get(key, now, limiter) => Got(t, cap, key, now, limiter, t') && Unused(t, key, limiter)
    case Sweep(cutoff) => t' == Swept(t, cutoff)
  }

  ghost predicate IsRun<L>(tables: seq<Table<L>>, ops: seq<Op<L>>, cap: int) {
    && |tables| == |ops| + 1 && tables[0] == map[]
    && forall i :: 0 <= i < |ops| ==> OpStep(tables[i], cap, ops[i], tables[i + 1])
  }

  lemma RunNext<L>(tables: seq<Table<L>>, ops: seq<Op<L>>, cap: int, op: Op<L>, t: Table<L>)
    requires IsRun(tables, ops, cap) && OpStep(tables[|ops|], cap, op, t)
    ensures IsRun(tables + [t], ops + [op], cap)
  {
    var tables', ops' := tables + [t], ops + [op];
    forall i | 0 <= i < |ops'| ensures OpStep(tables'[i], cap, ops'[i], tables'[i + 1]) {
      if i < |ops| { assert OpStep(tables[i], cap, ops[i], tables[i + 1]); }
    }
  }

  predicate Named<L>(ops: seq<Op<L>>) {
    forall i :: 0 <= i < |ops| && ops[i].Get? ==> ops[i].key != ""
  }

  /** Clock readings of successive `get` calls strictly increase, and keys are not empty. */
  predicate Ticking<L>(ops: seq<Op<L>>) {
    && (forall i, j :: 0 <= i < j < |ops| && ops[i].Get? && ops[j].Get? ==> ops[i].now < ops[j].now)
    && Named(ops)
  }

  predicate SeenAt<L>(op: Op<L>, x: Seen) { op.Get? && op.key == x.key && op.now == x.at }

  lemma {:induction false} RecencyTimes<L>(ops: seq<Op<L>>, cap: nat)
    ensures forall x :: x in Recency(ops, cap) ==> exists i :: 0 <= i < |ops| && SeenAt(ops[i], x)
  {
    if ops != [] {
      var n := |ops| - 1;
      var before := ops[..n];
      RecencyTimes(before, cap);
      forall x | x in Recency(ops, cap) ensures exists i :: 0 <= i < |ops| && SeenAt(ops[i], x) {
        if x in Recency(before, cap) {
          var i :| 0 <= i < n && SeenAt(before[i], x);
          assert SeenAt(ops[i], x);
        } else {
          assert SeenAt(ops[n], x);
        }
      }
    }
  }

  /** After any run the table holds exactly the recency list, cut to the capacity and to the sweeps. */
  lemma {:induction false} RunRefines<L>(tables: seq<Table<L>>, ops: seq<Op<L>>, cap: nat)
    requires cap >= 1 && IsRun(tables, ops, cap) && Ticking(ops)
    ensures Refines(tables[|ops|], Recency(ops, cap)) && |Recency(ops, cap)| <= cap
  {
    if ops != [] {
      var n := |ops| - 1;
      var before := ops[..n];
      assert forall i :: 0 <= i < n ==> before[i] == ops[i];
      RunRefines(tables[..n + 1], before, cap);
      RecencyTimes(before, cap);
      var t, l := tables[n], Recency(before, cap);
      assert OpStep(t, cap, ops[n], tables[n + 1]);
      forall x | x in l ensures x.key != "" && (ops[n].Get? ==> x.at < ops[n].now) {
        var i :| 0 <= i < n && SeenAt(before[i], x);
        assert ops[i].Get?;
      }
      if ops[n].Get? {
        assert "" !in Keys(l);
        GetRefines(t, l, cap, ops[n].key, ops[n].now, ops[n].limiter, tables[n + 1]);
      } else {
        SweepRefines(t, l, ops[n].cutoff);
      }
    }
  }

  /** With arbitrary clock readings the table never outgrows its capacity, and no two keys share a limiter. */
  lemma {:induction false} RunBounded<L>(tables: seq<Table<L>>, ops: seq<Op<L>>, cap: nat, i: nat)
    requires cap >= 1 && IsRun(tables, ops, cap) && i < |tables| && Named(ops)
    ensures |tables[i]| <= cap && "" !in tables[i] && LimitersDistinct(tables[i])
  {
    if i > 0 {
      RunBounded(tables, ops, cap, i - 1);
      var t, op, t' := tables[i - 1], ops[i - 1], tables[i];
      assert OpStep(t, cap, op, t');
      if op.Get? {
        BoundKept(t, cap, op.key, op.now, op.limiter, t');
        LimitersKept(t, cap, op.key, op.now, op.limiter, t');
      } else {
        SubmapSize(t, t');
      }
    }
  }

  lemma SubmapSize<L>(t: Table<L>, t': Table<L>)
    requires t'.Keys <= t.Keys
    ensures |t'| <= |t|
  {
    SubsetSize(t'.Keys, t.Keys);
  }

  lemma SubsetSize(a: set<string>, b: set<string>)
    requires a <= b
    ensures |a| <= |b|
  {
    assert b == a + (b - a);
  }

  /** A key keeps its limiter for as long as it stays in the table. */
  lemma {:induction false} LimiterStays<L>(
    tables: seq<Table<L>>, ops: seq<Op<L>>, cap: nat, i: nat, j: nat, key: string)
    requires cap >= 1 && IsRun(tables, ops, cap) && i <= j < |tables| && Named(ops)
    requires forall l :: i <= l <= j ==> key in tables[l]
    ensures tables[i][key].limiter == tables[j][key].limiter
  {
    if i < j {
      LimiterStays(tables, ops, cap, i, j - 1, key);
      RunBounded(tables, ops, cap, j - 1);
      LimiterStaysOnce(tables[j - 1], cap, ops[j - 1], tables[j], key);
    }
  }

  lemma LimiterStaysOnce<L>(t: Table<L>, cap: nat, op: Op<L>, t': Table<L>, key: string)
    requires OpStep(t, cap, op, t') && LimitersDistinct(t) && key in t && key in t'
    ensures t'[key].limiter == t[key].limiter
  {
    if op.Get? { LimitersKept(t, cap, op.key, op.now, op.limiter, t'); }
  }

  /**
   Whatever has been done to it: used on non-empty keys, the table is within its capacity; with increasing clock
   readings it holds exactly the most recently used keys.
   */
  ghost predicate WellKept<L>(ops: seq<Op<L>>, cap: nat, t: Table<L>) {
    && (Named(ops) ==> |t| <= cap)
    && (Ticking(ops) ==> Refines(t, Recency(ops, cap)) && |Recency(ops, cap)| <= cap)
  }

  lemma HistoryNext<L>(tables: seq<Table<L>>, ops: seq<Op<L>>, cap: nat, op: Op<L>, t: Table<L>)
    requires cap >= 1 && IsRun(tables, ops, cap) && OpStep(tables[|ops|], cap, op, t)
    ensures IsRun(tables + [t], ops + [op], cap) && WellKept(ops + [op], cap, t)
  {
    var tables', ops' := tables + [t], ops + [op];
    RunNext(tables, ops, cap, op, t);
    if Named(ops') { RunBounded(tables', ops', cap, |ops'|); }
    if Ticking(ops') { RunRefines(tables', ops', cap); }
  }

  // ------------------------------------------------------------------ the table of the source

  /** A token bucket; only its identity matters here. */
  class RateLimiter {
    constructor () { }
  }

  class LimiterEntry {
    const limiter: RateLimiter
    var lastSeen: int

    constructor (limiter: RateLimiter, now: int)
      ensures this.limiter == limiter && lastSeen == now
    {
      this.limiter := limiter;
      lastSeen := now;
    }
  }

  /** `ops` and `tables` record what has been done to the table and what it has been. */
  class PrincipalLimiters {
    const cap: int
    var m: map<string, LimiterEntry>
    ghost var ops: seq<Op<RateLimiter>>
    ghost var tables: seq<Table<RateLimiter>>

    ghost predicate Valid()
      reads this, m.Values
    {
      && cap >= 1
      && Apart()
      && IsRun(tables, ops, cap) && Contents() == tables[|ops|]
    }

    /** No two keys share an entry or a limiter. */
    ghost predicate Apart()
      reads this
    {
      && (forall j, k :: j in m && k in m && m[j] == m[k] ==> j == k)
      && (forall j, k :: j in m && k in m && m[j].limiter == m[k].limiter ==> j == k)
    }

    ghost function Contents(): Table<RateLimiter>
      reads this, m.Values
    {
      map k | k in m :: Slot(m[k].limiter, m[k].lastSeen)
    }

    constructor (capacity: int)
      ensures Valid() && m == map[] && ops == []
      ensures cap == if capacity <= 0 then 10000 else capacity
    {
      cap := if capacity <= 0 then 10000 else capacity;
      m, ops, tables := map[], [], [map[]];
    }

    /** What the run theorems say of the table now. */
    ghost predicate Kept()
      reads this, m.Values
    {
      cap >= 1 && WellKept(ops, cap, Contents())
    }

    method Get(key: string, now: int) returns (limiter: RateLimiter)
      requires Valid()
      modifies this, m.Values
      ensures Valid() && key in m && limiter == m[key].limiter
      ensures ops == old(ops) + [Op.Get(key, now, limiter)] && tables == old(tables) + [Contents()] && Kept()
      ensures key in old(m) ==> m == old(m)
      ensures key !in old(m) ==> fresh(limiter)
    {
      limiter := Lookup(key, now);
      Record(Op.Get(key, now, limiter));
    }

    method Record(ghost op: Op<RateLimiter>)
      requires cap >= 1 && Apart() && IsRun(tables, ops, cap) && OpStep(tables[|ops|], cap, op, Contents())
      modifies this`ops, this`tables
      ensures Valid() && ops == old(ops) + [op] && tables == old(tables) + [Contents()] && Kept()
    {
      HistoryNext(tables, ops, cap, op, Contents());
      ops, tables := ops + [op], tables + [Contents()];
    }

    method Lookup(key: string, now: int) returns (limiter: RateLimiter)
      requires Apart() && cap >= 1
      modifies this`m, m.Values
      ensures Apart() && key in m && limiter == m[key].limiter
      ensures OpStep(old(Contents()), cap, Op.Get(key, now, limiter), Contents())
      ensures key in old(m) ==> m == old(m)
      ensures key !in old(m) ==> fresh(limiter)
    {
      assert Contents().Keys == m.Keys;
      if key in m {
        var e := m[key];
        e.lastSeen := now;
        assert Contents() == old(Contents())[key := Slot(e.limiter, now)];
        return e.limiter;
      }
      ghost var victim := "";
      if |m| >= cap { victim := EvictOldest(); }
      assert Contents() == Room(old(Contents()), cap, victim);
      limiter := Insert(key, now);
    }

    method Insert(key: string, now: int) returns (limiter: RateLimiter)
      requires Apart() && key !in m
      modifies this`m
      ensures Apart() && key in m && limiter == m[key].limiter && fresh(limiter)
      ensures Contents() == old(Contents())[key := Slot(limiter, now)]
    {
      limiter := new RateLimiter();
      var e := new LimiterEntry(limiter, now);
      m := m[key := e];
    }

    method EvictOldest() returns (ghost victim: string)
      requires Apart() && m != map[]
      modifies this`m
      ensures Apart() && Oldest(old(Contents()), victim) && Contents() == Without(old(Contents()), victim)
      ensures forall k :: k in m ==> k in old(m) && m[k] == old(m)[k]
    {
      var oldestKey, oldestSeen, first := "", 0, true;
      var todo := m.Keys;
      while todo != {}
        invariant todo <= m.Keys
        invariant first <==> todo == m.Keys
        invariant !first ==> oldestKey in m && oldestSeen == m[oldestKey].lastSeen
        invariant !first ==> forall j :: j in m && j !in todo ==> oldestSeen <= m[j].lastSeen
        decreases todo
      {
        var k :| k in todo;
        todo := todo - {k};
        if first || m[k].lastSeen < oldestSeen {
          oldestKey, oldestSeen := k, m[k].lastSeen;
          first := false;
        }
      }
      victim := oldestKey;
      if oldestKey != "" { m := m - {oldestKey}; }
    }

    method Sweep(cutoff: int) returns (removed: int)
      requires Valid()
      modifies this
      ensures Valid() && removed == |old(m)| - |m|
      ensures forall k :: k in m <==> k in old(m) && old(m[k].lastSeen) >= cutoff
      ensures ops == old(ops) + [Op.Sweep(cutoff)] && tables == old(tables) + [Contents()] && Kept()
    {
      removed := DropIdle(cutoff);
      Record(Op.Sweep(cutoff));
    }

    method DropIdle(cutoff: int) returns (removed: int)
      requires Apart()
      modifies this`m
      ensures Apart() && Contents() == Swept(old(Contents()), cutoff)
      ensures forall k :: k in m <==> k in old(m) && old(m[k].lastSeen) >= cutoff
      ensures removed == |old(m)| - |m|
    {
      removed := 0;
      ghost var was, idle := m, set k | k in m && m[k].lastSeen < cutoff;
      var todo := m.Keys;
      while todo != {}
        invariant Sifted(was, m, idle, todo) && removed == |was| - |m|
        decreases todo
      {
        var k :| k in todo;
        SiftNext(was, m, idle, todo, k);
        todo := todo - {k};
        if m[k].lastSeen < cutoff {
          m := m - {k};
          removed := removed + 1;
        }
      }
    }
  }

  /** Of the idle keys those still to do are left, and of the others all. */
  ghost predicate Sifted<K(!new), V>(was: map<K, V>, now: map<K, V>, idle: set<K>, todo: set<K>) {
    && todo <= now.Keys
    && (forall k :: k in now ==> k in was && now[k] == was[k])
    && (forall k :: k in was ==> (k in now <==> k in todo || k !in idle))
  }

  lemma SiftNext<K(!new), V>(was: map<K, V>, now: map<K, V>, idle: set<K>, todo: set<K>, k: K)
    requires Sifted(was, now, idle, todo) && k in todo
    ensures Sifted(was, if k in idle then now - {k} else now, idle, todo - {k}) && |now - {k}| == |now| - 1
    ensures now[k] == was[k]
  {
    assert (now - {k}).Keys == now.Keys - {k};
  }
}
