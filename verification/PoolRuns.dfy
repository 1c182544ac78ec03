/** What every interleaving of calls and worker loops keeps: pool safety, removals and the snapshot cache. */
module PoolRuns {
  import opened Pool
  import opened Wrappers

  // ------------------------------------------------------- every interleaving

  ghost predicate Inv(p: Pool) {
    CustodyInv(p) && CacheInv(p) && forall id :: MarkInv(p, id)
  }

  lemma InvokeKeepsInv(p: Pool, c: Call)
    requires Inv(p) && c.IsEntry()
    ensures Inv(p.(calls := p.calls + [c]))
  {
    var q := p.(calls := p.calls + [c]);
    QuietKeepsCustody(p, q);
    forall w: nat | w < |q.table| ensures WorkerCache(q, w) {
      assert WorkerCache(p, w);
    }
    forall k | 0 <= k < |q.calls| ensures CallCache(q, q.calls[k]) {
      assert k < |p.calls| ==> CallCache(p, p.calls[k]);
    }
    forall id ensures MarkInv(q, id) {
      assert MarkInv(p, id);
      if id in p.marks && id !in p.stuck {
        var k :| 0 <= k < |p.calls| && p.calls[k].Live(id);
        assert q.calls[k].Live(id);
      }
    }
  }

  lemma ProbeKeepsInv(p: Pool, w: nat, down: bool)
    requires Inv(p) && w < |p.table|
    ensures Inv(SetWorker(p, w, p.table[w].(down := down)))
  {
    var q := SetWorker(p, w, p.table[w].(down := down));
    QuietKeepsCustody(p, q);
    forall v: nat | v < |q.table| ensures WorkerCache(q, v) {
      assert WorkerCache(p, v);
      WorkerCacheGrows(p, q, v);
    }
    forall k | 0 <= k < |q.calls| ensures CallCache(q, q.calls[k]) {
      CallCacheGrows(p, q, p.calls[k]);
    }
    forall id ensures MarkInv(q, id) {
      assert MarkInv(p, id);
    }
  }

  lemma StepKeepsInv(p: Pool, a: Action)
    requires Inv(p) && Enabled(p, a)
    ensures Inv(Apply(p, a))
  {
    hide CustodyInv, CacheInv, MarkInv, StepCall, StepLoop;
    match a
    case Invoke(c) => InvokeKeepsInv(p, c);
    case Probe(w, down) => ProbeKeepsInv(p, w, down);
    case Advance(k, o) =>
      CallKeepsCustody(p, k, o);
      CallKeepsCache(p, k, o);
      forall id ensures MarkInv(StepCall(p, k, o), id) {
        CallKeepsMarks(p, k, o, id);
      }
    case Turn(w, o) =>
      LoopKeepsCustody(p, w, o);
      LoopKeepsCache(p, w, o);
      forall id ensures MarkInv(StepLoop(p, w, o), id) {
        LoopKeepsMarks(p, w, o);
        SameMarks(p, StepLoop(p, w, o), id);
      }
  }

  lemma SameMarks(p: Pool, q: Pool, id: string)
    requires MarkInv(p, id) && q.marks == p.marks && q.stuck == p.stuck && q.calls == p.calls
    ensures MarkInv(q, id)
  {
  }

  lemma {:induction false} RunKeepsInv(p: Pool, acts: seq<Action>)
    requires Inv(p) && Run(p, acts).Some?
    ensures Inv(Run(p, acts).value)
  {
    if acts != [] {
      hide Inv, Enabled, Apply;
      RunKeepsInv(p, acts[..|acts| - 1]);
      StepKeepsInv(Run(p, acts[..|acts| - 1]).value, acts[|acts| - 1]);
    }
  }

  lemma ReachedInv(acts: seq<Action>)
    requires Run(EMPTY, acts).Some?
    ensures Inv(Run(EMPTY, acts).value)
  {
    assert Inv(EMPTY);
    RunKeepsInv(EMPTY, acts);
  }

  // ------------------------------------------------------------ main results

  /**
    * In every interleaving: a stop channel is closed at most once; a pooled worker is filed under its own
    * switch, its channel is open and its loop is running; and every worker ever started is pooled, in the
    * hands of exactly one removal, or stopped for good, so no loop is ever leaked.
    */
  lemma PoolSafety(acts: seq<Action>, w: nat)
    requires Run(EMPTY, acts).Some? && w < |Run(EMPTY, acts).value.table|
    ensures var p := Run(EMPTY, acts).value;
            var pooled := exists id :: id in p.workers && p.workers[id] == w;
            var held := exists k :: 0 <= k < |p.calls| && p.calls[k].Holds() && p.calls[k].worker == w;
            var x := p.table[w];
            && x.closes <= 1
            && (pooled ==> x.cfg.id in p.workers && p.workers[x.cfg.id] == w)
            && (forall id :: id in p.workers && p.workers[id] == w ==> id == x.cfg.id)
            && (pooled ==> x.closes == 0 && !x.loop.Exited? && !held)
            && (forall j, k :: 0 <= j < k < |p.calls| && p.calls[j].Holds() && p.calls[k].Holds() ==>
                  p.calls[j].worker != p.calls[k].worker)
            && (!pooled && !held ==> x.loop.Exited?)
  {
    ReachedInv(acts);
    var p := Run(EMPTY, acts).value;
    assert InCustody(p, w);
    if p.custody[w].HeldBy? {
      assert p.calls[p.custody[w].call].Holds();
    }
  }

  /** A switch never has two loops that no removal is stopping, although `Update` removes and adds separately. */
  lemma OneWorkerPerSwitch(acts: seq<Action>, v: nat, w: nat)
    requires Run(EMPTY, acts).Some?
    requires v < w < |Run(EMPTY, acts).value.table|
    requires var p := Run(EMPTY, acts).value;
             && p.table[v].cfg.id == p.table[w].cfg.id && !p.table[v].loop.Exited? && !p.table[w].loop.Exited?
    ensures var p := Run(EMPTY, acts).value;
            exists k :: 0 <= k < |p.calls| && p.calls[k].Holds() && p.calls[k].worker in {v, w}
  {
    ReachedInv(acts);
    var p := Run(EMPTY, acts).value;
    assert InCustody(p, v) && InCustody(p, w);
    var u := if p.custody[v].HeldBy? then v else w;
    assert p.custody[u].HeldBy?;
    assert p.calls[p.custody[u].call].worker in {v, w};
  }

  /** A worker that is out of the pool and has left its loop. */
  ghost predicate Retired(p: Pool, w: nat) {
    w < |p.table| && w < |p.custody| && p.custody[w].Gone? && p.table[w].loop.Exited?
  }

  lemma CallKeepsRetired(p: Pool, k: nat, o: Outcome, w: nat)
    requires CustodyInv(p) && k < |p.calls| && CallEnabled(p, p.calls[k], o) && Retired(p, w)
    ensures Retired(StepCall(p, k, o), w) && StepCall(p, k, o).published == p.published
  {
    var c := p.calls[k];
    CallFrame(p, k, o);
    assert c.Removing? && c.id in p.workers ==> p.custody[p.workers[c.id]].InPool?;
    if c.StoringPorts? {
      hide ChangeLast;
      ChangeLastQuiet(SetCall(p, k, Returned(true)), c.worker, v => PutPorts(v, c.ports));
    }
  }

  lemma LoopKeepsRetired(p: Pool, v: nat, o: Outcome, w: nat)
    requires v < |p.table| && LoopEnabled(p.table[v], o) && Retired(p, w)
    ensures v != w && Retired(StepLoop(p, v, o), w)
    ensures StepLoop(p, v, o).published == p.published || StepLoop(p, v, o).published == p.published + [v]
  {
    var x := p.table[v];
    if x.loop.CachingStats? {
      hide ChangeLast;
      ChangeLastQuiet(SetWorker(p, v, x.(loop := if x.last.Some? then Publishing else Selecting)), v,
                      y => PutStats(y, x.loop.stats));
    }
  }

  lemma StepKeepsRetired(p: Pool, a: Action, w: nat)
    requires Inv(p) && Enabled(p, a) && Retired(p, w)
    ensures Retired(Apply(p, a), w)
    ensures Apply(p, a).published == p.published
         || exists v :: v != w && Apply(p, a).published == p.published + [v]
  {
    hide StepCall, StepLoop, CustodyInv, CacheInv, MarkInv;
    match a
    case Advance(k, o) => CallKeepsRetired(p, k, o, w);
    case Turn(v, o) => LoopKeepsRetired(p, v, o, w);
    case _ =>
  }

  lemma {:induction false} RunKeepsRetired(p: Pool, acts: seq<Action>, w: nat)
    requires Inv(p) && Run(p, acts).Some? && Retired(p, w)
    ensures var q := Run(p, acts).value;
            Retired(q, w) && p.published <= q.published && w !in q.published[|p.published|..]
  {
    if acts != [] {
      hide Inv, Enabled, Apply;
      var before := acts[..|acts| - 1];
      RunKeepsRetired(p, before, w);
      RunKeepsInv(p, before);
      StepKeepsRetired(Run(p, before).value, acts[|acts| - 1], w);
      var q0, q := Run(p, before).value.published, Run(p, acts).value.published;
      assert q == q0 || exists v :: v != w && q == q0 + [v];
    }
  }

  /** After a removal returns, its worker never calls `onSnap` again and never comes back into the pool. */
  lemma RemovedIsSilent(before: seq<Action>, k: nat, after: seq<Action>)
    requires Run(EMPTY, before).Some? && k < |Run(EMPTY, before).value.calls|
    requires Run(EMPTY, before).value.calls[k].Waiting? && Enabled(Run(EMPTY, before).value, Advance(k, Done))
    requires var p := Run(EMPTY, before).value; Run(Apply(p, Advance(k, Done)), after).Some?
    ensures var p := Run(EMPTY, before).value;
            var w := p.calls[k].worker;
            var r := Run(Apply(p, Advance(k, Done)), after).value;
            && p.published <= r.published && w !in r.published[|p.published|..]
            && forall id :: id in r.workers ==> r.workers[id] != w
  {
    ReachedInv(before);
    var p := Run(EMPTY, before).value;
    var q := Apply(p, Advance(k, Done));
    var w := p.calls[k].worker;
    assert p.custody[w] == HeldBy(k);
    StepKeepsInv(p, Advance(k, Done));
    assert Retired(q, w) && q.published == p.published;
    RunKeepsRetired(q, after, w);
    RunKeepsInv(q, after);
  }

  lemma RunSnoc(p: Pool, acts: seq<Action>, q: Pool, a: Action)
    requires Run(p, acts) == Some(q) && Enabled(q, a)
    ensures Run(p, acts + [a]) == Some(Apply(q, a))
  {
    assert (acts + [a])[..|acts|] == acts;
  }

  /** One turn of worker `w` that leaves its channel, the calls and `custody` alone. */
  lemma Turned(p: Pool, w: nat, o: Outcome)
    requires w < |p.table| && LoopEnabled(p.table[w], o)
    ensures var q := StepLoop(p, w, o);
            && q.calls == p.calls && |q.table| == |p.table| && q.table[w].closes == p.table[w].closes
            && q.table[w].loop ==
               match p.table[w].loop
               case LoggingIn => if o.Failed? then Selecting else Fetching(true)
               case Fetching(full) =>
                 if o.Failed? then Selecting else if full then CachingFull(|p.objects|) else CachingStats(o.stats)
               case CachingFull(_) => Publishing
               case CachingStats(_) => if p.table[w].last.Some? then Publishing else Selecting
               case Publishing => Selecting
               case Selecting => if o.StopSignal? then Exited else Fetching(o.FullTick?)
  {
    var x := p.table[w];
    if x.loop.CachingStats? {
      hide ChangeLast;
      ChangeLastQuiet(SetWorker(p, w, x.(loop := if x.last.Some? then Publishing else Selecting)), w,
                      v => PutStats(v, x.loop.stats));
    }
  }

  lemma OthersUnmoved(p: Pool, w: nat, o: Outcome, v: nat)
    requires w < |p.table| && LoopEnabled(p.table[w], o) && v < |p.table| && v != w
    ensures var q := StepLoop(p, w, o); v < |q.table| && q.table[v] == p.table[v]
  {
    var x := p.table[w];
    if x.loop.CachingStats? {
      hide ChangeLast;
      ChangeLastQuiet(SetWorker(p, w, x.(loop := if x.last.Some? then Publishing else Selecting)), w,
                      y => PutStats(y, x.loop.stats));
    }
  }

  /** The turn that brings a loop closer to its exit, once its stop channel is closed. */
  function Closing(x: Worker): Outcome {
    match x.loop
    case LoggingIn => Failed
    case Fetching(_) => Failed
    case Selecting => StopSignal
    case _ => Done
  }

  function Distance(l: Loop): nat {
    match l
    case Exited => 0
    case Selecting => 1
    case CachingFull(_) => 3
    case CachingStats(_) => 3
    case _ => 2
  }

  lemma CloserTurn(p: Pool, w: nat)
    requires w < |p.table| && p.table[w].closes > 0 && !p.table[w].loop.Exited?
    ensures var a := Turn(w, Closing(p.table[w]));
            && Enabled(p, a)
            && Apply(p, a).calls == p.calls && |Apply(p, a).table| == |p.table| && Apply(p, a).table[w].closes > 0
            && Distance(Apply(p, a).table[w].loop) < Distance(p.table[w].loop)
  {
    hide StepLoop;
    Turned(p, w, Closing(p.table[w]));
  }

  lemma LoopCanExit(p: Pool, w: nat) returns (acts: seq<Action>)
    requires w < |p.table| && p.table[w].closes > 0
    ensures |acts| <= Distance(p.table[w].loop) && Run(p, acts).Some?
    ensures forall i :: 0 <= i < |acts| ==> acts[i].Turn? && acts[i].worker == w
    ensures var q := Run(p, acts).value; q.calls == p.calls && |q.table| == |p.table| && q.table[w].loop.Exited?
  {
    hide Enabled, Apply, Distance, Closing;
    acts := [];
    var q := p;
    while !q.table[w].loop.Exited?
      invariant Run(p, acts) == Some(q) && q.calls == p.calls && |q.table| == |p.table|
      invariant q.table[w].closes > 0
      invariant |acts| + Distance(q.table[w].loop) <= Distance(p.table[w].loop)
      invariant forall i :: 0 <= i < |acts| ==> acts[i].Turn? && acts[i].worker == w
      decreases Distance(q.table[w].loop)
    {
      var a := Turn(w, Closing(q.table[w]));
      CloserTurn(q, w);
      RunSnoc(p, acts, q, a);
      acts, q := acts + [a], Apply(q, a);
    }
  }

  /** No removal waits in vain: within three turns of its own worker it can return. */
  lemma RemovalCanReturn(before: seq<Action>, k: nat) returns (acts: seq<Action>)
    requires Run(EMPTY, before).Some? && k < |Run(EMPTY, before).value.calls|
    requires Run(EMPTY, before).value.calls[k].Waiting?
    ensures var p := Run(EMPTY, before).value;
            && |acts| <= 3 && Run(p, acts).Some?
            && (forall i :: 0 <= i < |acts| ==> acts[i].Turn? && acts[i].worker == p.calls[k].worker)
            && Enabled(Run(p, acts).value, Advance(k, Done))
  {
    ReachedInv(before);
    var p := Run(EMPTY, before).value;
    assert InCustody(p, p.calls[k].worker);
    acts := LoopCanExit(p, p.calls[k].worker);
  }

  predicate IsTurn(a: Action, w: nat) {
    a.Turn? && a.worker == w
  }

  predicate IsTick(a: Action, w: nat) {
    IsTurn(a, w) && (a.outcome.FullTick? || a.outcome.StatsTick?)
  }

  function Turns(acts: seq<Action>, w: nat): nat {
    if acts == [] then 0 else Turns(acts[..|acts| - 1], w) + if IsTurn(acts[|acts| - 1], w) then 1 else 0
  }

  function Ticks(acts: seq<Action>, w: nat): nat {
    if acts == [] then 0 else Ticks(acts[..|acts| - 1], w) + if IsTick(acts[|acts| - 1], w) then 1 else 0
  }

  /** The most turns a loop can take without a tick. */
  function Rank(l: Loop): nat {
    match l
    case Exited => 0
    case Selecting => 1
    case Publishing => 2
    case CachingFull(_) => 3
    case CachingStats(_) => 3
    case Fetching(_) => 4
    case LoggingIn => 5
  }

  lemma StepRank(p: Pool, a: Action, w: nat)
    requires Enabled(p, a) && w < |p.table|
    ensures w < |Apply(p, a).table|
    ensures Rank(Apply(p, a).table[w].loop) + (if IsTurn(a, w) then 1 else 0) <=
            Rank(p.table[w].loop) + 4 * if IsTick(a, w) then 1 else 0
  {
    hide StepCall, StepLoop;
    match a
    case Advance(k, o) => CallFrame(p, k, o);
    case Turn(v, o) =>
      if v == w {
        Turned(p, v, o);
      } else {
        OthersUnmoved(p, v, o, w);
      }
    case _ =>
  }

  lemma {:induction false} RunRank(p: Pool, acts: seq<Action>, w: nat)
    requires Run(p, acts).Some? && w < |p.table|
    ensures var q := Run(p, acts).value;
            w < |q.table| && Rank(q.table[w].loop) + Turns(acts, w) <= Rank(p.table[w].loop) + 4 * Ticks(acts, w)
  {
    if acts != [] {
      hide Enabled, Apply, Rank;
      RunRank(p, acts[..|acts| - 1], w);
      StepRank(Run(p, acts[..|acts| - 1]).value, acts[|acts| - 1], w);
    }
  }

  /**
    * A removal waits only as long as its worker is given no turn or its select prefers a ticker to the closed
    * stop channel: in every continuation with five turns, and four more for each such tick, the loop has exited.
    */
  lemma RemovalReturns(before: seq<Action>, k: nat, after: seq<Action>)
    requires Run(EMPTY, before).Some? && k < |Run(EMPTY, before).value.calls|
    requires Run(EMPTY, before).value.calls[k].Waiting? && Run(Run(EMPTY, before).value, after).Some?
    requires var w := Run(EMPTY, before).value.calls[k].worker; Turns(after, w) >= 5 + 4 * Ticks(after, w)
    ensures var p := Run(EMPTY, before).value;
            var q := Run(p, after).value;
            && p.calls[k].worker < |q.table| && q.table[p.calls[k].worker].loop.Exited?
            && (k < |q.calls| && q.calls[k] == p.calls[k] ==> Enabled(q, Advance(k, Done)))
  {
    ReachedInv(before);
    var p := Run(EMPTY, before).value;
    assert p.custody[p.calls[k].worker] == HeldBy(k);
    RunRank(p, after, p.calls[k].worker);
  }

  /** The one kind of step that may change what worker `w` has cached, and the change it makes. */
  function CacheAfter(p: Pool, a: Action, w: nat): Option<Snapshot>
    requires w < |p.table| && Enabled(p, a)
  {
    match a
    case Turn(v, _) =>
      if v != w then View(p, w)
      else (match p.table[w].loop
            case CachingFull(r) => if r < |p.objects| then Some(p.objects[r].snap) else None
            case CachingStats(stats) => PutStats(View(p, w), stats)
            case _ => View(p, w))
    case Advance(k, _) =>
      (match p.calls[k]
       case Storing(_, v, r) => if v != w then View(p, w) else if r < |p.objects| then Some(p.objects[r].snap) else None
       case StoringPorts(v, ports) => if v != w then View(p, w) else PutPorts(View(p, w), ports)
       case _ => View(p, w))
    case _ => View(p, w)
  }

  lemma StepView(p: Pool, a: Action, w: nat)
    requires Inv(p) && Enabled(p, a) && w < |p.table|
    ensures w < |Apply(p, a).table| && Apply(p, a).table[w].cfg == p.table[w].cfg
    ensures View(Apply(p, a), w) == CacheAfter(p, a, w)
  {
    hide StepCall, StepLoop;
    match a
    case Turn(v, o) =>
      assert WorkerCache(p, v);
      LoopView(p, v, o, w);
      LoopGrows(p, v, o);
    case Advance(k, o) =>
      assert CallCache(p, p.calls[k]);
      CallView(p, k, o, w);
      CallGrows(p, k, o);
    case _ =>
  }

  /**
    * The snapshot cache over all interleavings: a step changes worker `w`'s cached snapshot only if it is a
    * store made for `w` itself, by its own loop or by a call that looked `w` up; a store of counters touches
    * only the counters, one of ports only the ports, and a failed collection nothing at all.
    */
  lemma CacheStep(acts: seq<Action>, a: Action, w: nat)
    requires Run(EMPTY, acts).Some? && Enabled(Run(EMPTY, acts).value, a) && w < |Run(EMPTY, acts).value.table|
    ensures var p := Run(EMPTY, acts).value;
            var q := Apply(p, a);
            && w < |q.table|
            && (View(p, w).Some? ==> View(q, w).Some?)
            && (View(q, w).Some? ==> View(q, w).value.switchId == q.table[w].cfg.id)
            && (View(q, w) != View(p, w) ==>
                  || (a == Turn(w, Done) && p.table[w].loop.CachingFull?)
                  || (a == Turn(w, Done) && p.table[w].loop.CachingStats?
                      && View(p, w).Some? && View(q, w) == Some(View(p, w).value.(portStats := p.table[w].loop.stats)))
                  || (a.Advance? && p.calls[a.k].Storing? && p.calls[a.k].worker == w)
                  || (a.Advance? && p.calls[a.k].StoringPorts? && p.calls[a.k].worker == w
                      && View(p, w).Some? && View(q, w) == Some(View(p, w).value.(ports := p.calls[a.k].ports))))
  {
    ReachedInv(acts);
    var p := Run(EMPTY, acts).value;
    StepView(p, a, w);
    StepKeepsInv(p, a);
    assert WorkerCache(Apply(p, a), w) && WorkerCache(p, w);
    match a
    case Turn(v, _) => assert WorkerCache(p, v);
    case Advance(k, _) => assert CallCache(p, p.calls[k]);
    case _ =>
  }

  /** A CollectNow or RefreshPorts that outlives its worker's removal changes no pooled worker's cache. */
  lemma LateStoreIsHarmless(acts: seq<Action>, k: nat, id: string)
    requires Run(EMPTY, acts).Some? && k < |Run(EMPTY, acts).value.calls|
    requires var p := Run(EMPTY, acts).value;
             && (p.calls[k].Storing? || p.calls[k].StoringPorts?) && id in p.workers
             && (forall i :: i in p.workers ==> p.workers[i] != p.calls[k].worker)
    ensures var p := Run(EMPTY, acts).value;
            var q := Apply(p, Advance(k, Done));
            && q.workers == p.workers && p.workers[id] < |p.table| <= |q.table|
            && View(q, p.workers[id]) == View(p, p.workers[id])
  {
    ReachedInv(acts);
    var p := Run(EMPTY, acts).value;
    CallIsQuiet(p, k, Done);
    StepView(p, Advance(k, Done), p.workers[id]);
  }
}
