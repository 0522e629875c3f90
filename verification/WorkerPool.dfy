/**
 The worker pool that fills in the chains of a listed page.

 The handler hands page indices to workers over an unbuffered channel, closes the channel and waits. A worker reads the
 chains of its key and, if that succeeds, writes the list and then the flag of its entry in the shared slice. `res(i)`
 is what the read for index `i` brings: the parsed list, or nothing when the read or the parse fails.
 */
module WorkerPool {
  import opened Text

  const WORKERS: nat := 8

  datatype Entry = Entry(path: string, chains: seq<string>, available: bool)

  datatype Stage = Reading | Writing(chains: seq<string>) | Flagging

  datatype Worker = Idle | Busy(index: nat, stage: Stage) | Gone

  datatype Pool = Pool(entries: seq<Entry>, next: nat, workers: seq<Worker>, closed: bool, returned: bool)

  datatype Step = Send(w: nat) | Read(w: nat) | WriteChains(w: nat) | WriteFlag(w: nat) | Close | Exit(w: nat) | Return

  type Results = nat -> Option<seq<string>>

  function Blank(path: string): Entry { Entry(path, [], false) }

  /** The entry that handling index `i` alone would produce. */
  function Final(paths: seq<string>, res: Results, i: nat): Entry
    requires i < |paths|
  {
    match res(i)
    case Some(chains) => Entry(paths[i], chains, true)
    case None => Blank(paths[i])
  }

  function Start(paths: seq<string>): Pool {
    Pool(seq(|paths|, i requires 0 <= i < |paths| => Blank(paths[i])), 0,
         seq(if |paths| < WORKERS then |paths| else WORKERS, _ => Idle), false, false)
  }

  predicate Working(p: Pool, w: nat) {
    w < |p.workers| && p.workers[w].Busy? && p.workers[w].index < |p.entries|
  }

  predicate Enabled(p: Pool, step: Step) {
    match step
    case Send(w) => w < |p.workers| && p.workers[w].Idle? && p.next < |p.entries|
    case Read(w) => Working(p, w) && p.workers[w].stage.Reading?
    case WriteChains(w) => Working(p, w) && p.workers[w].stage.Writing?
    case WriteFlag(w) => Working(p, w) && p.workers[w].stage.Flagging?
    case Close => !p.closed && p.next == |p.entries|
    case Exit(w) => p.closed && w < |p.workers| && p.workers[w].Idle?
    case Return => p.closed && !p.returned && forall w :: 0 <= w < |p.workers| ==> p.workers[w].Gone?
  }

  function Apply(res: Results, p: Pool, step: Step): Pool
    requires Enabled(p, step)
  {
    match step
    case Send(w) => p.(workers := p.workers[w := Busy(p.next, Reading)], next := p.next + 1)
    case Read(w) =>
      var i := p.workers[w].index;
      p.(workers := p.workers[w := if res(i).Some? then Busy(i, Writing(res(i).value)) else Idle])
    case WriteChains(w) =>
      var i := p.workers[w].index;
      p.(workers := p.workers[w := Busy(i, Flagging)],
         entries := p.entries[i := p.entries[i].(chains := p.workers[w].stage.chains)])
    case WriteFlag(w) =>
      var i := p.workers[w].index;
      p.(workers := p.workers[w := Idle], entries := p.entries[i := p.entries[i].(available := true)])
    case Close => p.(closed := true)
    case Exit(w) => p.(workers := p.workers[w := Gone])
    case Return => p.(returned := true)
  }

  // ------------------------------------------------------------------ invariant

  predicate Holds(p: Pool, w: nat, i: nat) {
    w < |p.workers| && p.workers[w].Busy? && p.workers[w].index == i
  }

  /** The entry a worker has in hand. */
  predicate EntryInHand(paths: seq<string>, res: Results, p: Pool, w: nat)
    requires |p.entries| == |paths| && w < |p.workers| && p.workers[w].Busy? && p.workers[w].index < |paths|
  {
    var i := p.workers[w].index;
    match p.workers[w].stage
    case Reading => p.entries[i] == Blank(paths[i])
    case Writing(chains) => res(i) == Some(chains) && p.entries[i] == Blank(paths[i])
    case Flagging => res(i).Some? && p.entries[i] == Entry(paths[i], res(i).value, false)
  }

  predicate WorkerOk(paths: seq<string>, res: Results, p: Pool, w: nat)
    requires |p.entries| == |paths| && p.next <= |paths| && w < |p.workers|
  {
    && (p.workers[w].Busy? ==> p.workers[w].index < p.next && EntryInHand(paths, res, p, w))
    && (p.workers[w].Gone? ==> p.closed)
  }

  /** An index not yet sent is blank; one sent and held by nobody is final. */
  ghost predicate IndexOk(paths: seq<string>, res: Results, p: Pool, i: nat)
    requires |p.entries| == |paths| && i < |paths|
  {
    && (i >= p.next ==> p.entries[i] == Blank(paths[i]))
    && (i < p.next && (forall w :: !Holds(p, w, i)) ==> p.entries[i] == Final(paths, res, i))
  }

  /** Each index is unsent, held by exactly one worker, or done; no two workers ever hold the same. */
  ghost predicate PoolInv(paths: seq<string>, res: Results, p: Pool) {
    && |p.entries| == |paths| && p.next <= |paths| && (|paths| > 0 ==> |p.workers| > 0)
    && (forall w, w', i :: Holds(p, w, i) && Holds(p, w', i) ==> w == w')
    && (forall w :: 0 <= w < |p.workers| ==> WorkerOk(paths, res, p, w))
    && (forall i :: 0 <= i < |paths| ==> IndexOk(paths, res, p, i))
    && (p.closed ==> p.next == |paths|)
    && (p.returned ==> p.closed && forall w :: 0 <= w < |p.workers| ==> p.workers[w].Gone?)
  }

  lemma StartOk(paths: seq<string>, res: Results)
    ensures PoolInv(paths, res, Start(paths))
  {
  }

  /** A step of one worker that leaves every other worker and every other entry alone. */
  lemma WorkerStepKeeps(paths: seq<string>, res: Results, p: Pool, p': Pool, w: nat)
    requires PoolInv(paths, res, p) && !p.returned && w < |p.workers| && p.workers[w].Busy?
    requires p.workers[w].index < |paths| == |p'.entries| && |p'.workers| == |p.workers|
    requires p' == p.(workers := p.workers[w := p'.workers[w]], entries := p'.entries)
    requires forall i :: 0 <= i < |paths| && i != p.workers[w].index ==> p'.entries[i] == p.entries[i]
    requires p'.workers[w].Busy? ==> p'.workers[w].index == p.workers[w].index && EntryInHand(paths, res, p', w)
    requires !p'.workers[w].Busy? ==>
               p'.workers[w].Idle? && p'.entries[p.workers[w].index] == Final(paths, res, p.workers[w].index)
    ensures PoolInv(paths, res, p')
  {
    var k := p.workers[w].index;
    assert WorkerOk(paths, res, p, w) && Holds(p, w, k);
    forall v, v', i | Holds(p', v, i) && Holds(p', v', i) ensures v == v' { assert Holds(p, v, i) && Holds(p, v', i); }
    forall v | 0 <= v < |p'.workers| ensures WorkerOk(paths, res, p', v) {
      if v != w {
        assert WorkerOk(paths, res, p, v);
        assert !Holds(p, v, k);
      }
    }
    forall i | 0 <= i < |paths| ensures IndexOk(paths, res, p', i) {
      assert IndexOk(paths, res, p, i);
      if i != k { forall v ensures Holds(p', v, i) <==> Holds(p, v, i) { } }
      if i == k && p'.workers[w].Busy? { assert Holds(p', w, i); }
    }
  }

  lemma SendKeeps(paths: seq<string>, res: Results, p: Pool, step: Step)
    requires PoolInv(paths, res, p) && step.Send? && Enabled(p, step)
    ensures PoolInv(paths, res, Apply(res, p, step))
  {
    var p' := Apply(res, p, step);
    var w := step.w;
    assert IndexOk(paths, res, p, p.next);
    forall v | 0 <= v < |p'.workers| ensures WorkerOk(paths, res, p', v) {
      if v != w { assert WorkerOk(paths, res, p, v); }
    }
    forall v | 0 <= v < |p.workers| && p.workers[v].Busy? ensures p.workers[v].index < p.next {
      assert WorkerOk(paths, res, p, v);
    }
    forall v, v', i | Holds(p', v, i) && Holds(p', v', i) ensures v == v' {
      assert v != w ==> Holds(p, v, i);
      assert v' != w ==> Holds(p, v', i);
    }
    forall i | 0 <= i < |paths| ensures IndexOk(paths, res, p', i) {
      assert IndexOk(paths, res, p, i);
      if i == p.next { assert Holds(p', w, i); }
      if i < p.next { forall v ensures Holds(p', v, i) <==> Holds(p, v, i) { } }
    }
  }

  lemma GateStepKeeps(paths: seq<string>, res: Results, p: Pool, step: Step)
    requires PoolInv(paths, res, p) && Enabled(p, step) && (step.Close? || step.Exit? || step.Return?)
    ensures PoolInv(paths, res, Apply(res, p, step))
  {
    var p' := Apply(res, p, step);
    forall v, v', i | Holds(p', v, i) && Holds(p', v', i) ensures v == v' { assert Holds(p, v, i) && Holds(p, v', i); }
    forall v | 0 <= v < |p'.workers| ensures WorkerOk(paths, res, p', v) { assert WorkerOk(paths, res, p, v); }
    forall i | 0 <= i < |paths| ensures IndexOk(paths, res, p', i) {
      assert IndexOk(paths, res, p, i);
      forall v ensures Holds(p', v, i) <==> Holds(p, v, i) { }
    }
  }

  lemma StepKeeps(paths: seq<string>, res: Results, p: Pool, step: Step)
    requires PoolInv(paths, res, p) && Enabled(p, step)
    ensures PoolInv(paths, res, Apply(res, p, step))
  {
    match step
    case Send(_) => SendKeeps(paths, res, p, step);
    case Close => GateStepKeeps(paths, res, p, step);
    case Exit(_) => GateStepKeeps(paths, res, p, step);
    case Return => GateStepKeeps(paths, res, p, step);
    case _ => OwnStepKeeps(paths, res, p, step);
  }

  lemma OwnStepKeeps(paths: seq<string>, res: Results, p: Pool, step: Step)
    requires PoolInv(paths, res, p) && Enabled(p, step) && (step.Read? || step.WriteChains? || step.WriteFlag?)
    ensures PoolInv(paths, res, Apply(res, p, step))
  {
    assert WorkerOk(paths, res, p, step.w);
    WorkerStepKeeps(paths, res, p, Apply(res, p, step), step.w);
  }

  // ------------------------------------------------------------------ progress

  function Weight(w: Worker): nat {
    match w
    case Gone => 0
    case Idle => 1
    case Busy(_, Flagging) => 2
    case Busy(_, Writing(_)) => 3
    case Busy(_, Reading) => 4
  }

  function Total(ws: seq<Worker>): nat {
    if ws == [] then 0 else Weight(ws[0]) + Total(ws[1..])
  }

  lemma {:induction false} TotalUpdate(ws: seq<Worker>, w: nat, x: Worker)
    requires w < |ws|
    ensures Total(ws[w := x]) == Total(ws) - Weight(ws[w]) + Weight(x)
  {
    if w == 0 {
      assert ws[w := x][1..] == ws[1..];
    } else {
      TotalUpdate(ws[1..], w - 1, x);
      assert ws[w := x][1..] == ws[1..][w - 1 := x];
    }
  }

  function Measure(p: Pool): int {
    4 * (|p.entries| - p.next) + Total(p.workers) + (if p.closed then 0 else 1) + (if p.returned then 0 else 1)
  }

  /** Every step makes progress. */
  lemma StepProgresses(paths: seq<string>, res: Results, p: Pool, step: Step)
    requires PoolInv(paths, res, p) && Enabled(p, step)
    ensures 0 <= Measure(Apply(res, p, step)) < Measure(p)
  {
    var p' := Apply(res, p, step);
    if step.Send? || step.Read? || step.WriteChains? || step.WriteFlag? || step.Exit? {
      TotalUpdate(p.workers, step.w, p'.workers[step.w]);
      assert p'.workers == p.workers[step.w := p'.workers[step.w]];
    }
  }

  /** Until the handler has returned, some step is possible. */
  lemma NeverStuck(paths: seq<string>, res: Results, p: Pool)
    requires PoolInv(paths, res, p) && !p.returned
    ensures exists step :: Enabled(p, step)
  {
    if w :| 0 <= w < |p.workers| && p.workers[w].Busy? {
      assert WorkerOk(paths, res, p, w);
      var step :=
        match p.workers[w].stage
        case Reading => Read(w)
        case Writing(_) => WriteChains(w)
        case Flagging => WriteFlag(w);
      assert Enabled(p, step);
    } else if p.next < |paths| {
      assert WorkerOk(paths, res, p, 0);
      assert Enabled(p, Send(0));
    } else if !p.closed {
      assert Enabled(p, Close);
    } else if w :| 0 <= w < |p.workers| && p.workers[w].Idle? {
      assert Enabled(p, Exit(w));
    } else {
      assert forall w :: 0 <= w < |p.workers| ==> p.workers[w].Gone?;
      assert Enabled(p, Return);
    }
  }

  // ------------------------------------------------------------------ runs

  ghost predicate IsRun(paths: seq<string>, res: Results, pools: seq<Pool>, steps: seq<Step>) {
    && |pools| == |steps| + 1 && pools[0] == Start(paths)
    && forall i :: 0 <= i < |steps| ==> Enabled(pools[i], steps[i]) && pools[i + 1] == Apply(res, pools[i], steps[i])
  }

  /** In every schedule the handler, when it returns, has exactly the entries of handling each index on its own. */
  lemma {:induction false} ScheduleIrrelevant(paths: seq<string>, res: Results, pools: seq<Pool>, steps: seq<Step>)
    requires IsRun(paths, res, pools, steps)
    ensures PoolInv(paths, res, pools[|steps|])
    ensures pools[|steps|].returned ==>
              pools[|steps|].entries == seq(|paths|, i requires 0 <= i < |paths| => Final(paths, res, i))
    ensures pools[|steps|].returned ==>
              forall i :: 0 <= i < |paths| ==>
                var e := pools[|steps|].entries[i];
                && e.path == paths[i] && e.available == res(i).Some?
                && e.chains == if res(i).Some? then res(i).value else []
    ensures |steps| <= Measure(pools[0])  // every schedule ends
    ensures Measure(pools[|steps|]) + |steps| <= Measure(pools[0]) && 0 <= Measure(pools[|steps|])
  {
    var n := |steps|;
    if n == 0 {
      StartOk(paths, res);
    } else {
      ScheduleIrrelevant(paths, res, pools[..n], steps[..n - 1]);
      assert pools[..n][n - 1] == pools[n - 1];
      StepKeeps(paths, res, pools[n - 1], steps[n - 1]);
      StepProgresses(paths, res, pools[n - 1], steps[n - 1]);
    }
    var p := pools[n];
    if p.returned {
      forall i | 0 <= i < |paths| ensures p.entries[i] == Final(paths, res, i) { assert IndexOk(paths, res, p, i); }
    }
  }
}
