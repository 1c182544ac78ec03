/**
  * The worker pool, the snapshot cache and the collecting marks as one state machine.  A step is what
  * happens between two lock operations, so a schedule is an interleaving of API calls and worker loops.
  */
module Pool {
  import opened Wrappers

  // ---------------------------------------------------------------- state

  datatype Config = Config(id: string, address: string)

  /** A snapshot; port and counter entries and the remaining sections are left uninterpreted. */
  datatype Snapshot = Snapshot(switchId: string, ports: seq<nat>, portStats: seq<nat>, rest: nat)

  /** An allocated snapshot and the worker it was fetched for. */
  datatype Cell = Cell(snap: Snapshot, worker: nat)

  /** Where a worker's `run` stands. */
  datatype Loop =
    | LoggingIn
    | Fetching(full: bool)
    | CachingFull(cell: nat)
    | CachingStats(stats: seq<nat>)
    | Publishing
    | Selecting
    | Exited

  datatype Worker = Worker(cfg: Config, closes: nat, loop: Loop, last: Option<nat>, down: bool)

  /** Where an API call stands, named after the step it takes next. */
  datatype Call =
    | Removing(id: string, andThen: Option<Config>)
    | Stopping(worker: nat, andThen: Option<Config>)
    | Waiting(worker: nat, andThen: Option<Config>)
    | Adding(cfg: Config, collect: bool)
    | Triggering(id: string)
    | Marking(id: string)
    | Looking(id: string)
    | Starting(id: string, worker: nat)
    | Collecting(id: string, worker: nat)
    | Storing(id: string, worker: nat, cell: nat)
    | Ending(id: string)
    | Refreshing(id: string)
    | ReadingPorts(worker: nat)
    | StoringPorts(worker: nat, ports: seq<nat>)
    | Returned(ok: bool)
  {
    /** The exported entry points: Remove and Update, Add, AddSwitch, TriggerCollect, CollectNow, RefreshPorts. */
    predicate IsEntry() {
      (Removing? && (andThen.Some? ==> andThen.value.id == id)) || Adding? || Triggering? || Looking? || Refreshing?
    }

    /** A removal that has taken a worker out of the map and not yet returned. */
    predicate Holds() {
      Stopping? || Waiting?
    }

    /** A collection of switch `i` that is pending or running. */
    predicate Live(i: string) {
      (Looking? || Starting? || Collecting? || Storing? || Ending?) && id == i
    }
  }

  /** Who is responsible for a worker: the map, one removal in progress, or nobody any more. */
  datatype Custody = InPool | HeldBy(call: nat) | Gone

  /**
    * `custody`, `published` and `stuck` are histories: whose each worker is, which workers called
    * `onSnap`, and the switches whose mark a failed lookup left behind since their last collection ended.
    */
  datatype Pool = Pool(
    workers: map<string, nat>, table: seq<Worker>, objects: seq<Cell>, marks: set<string>, calls: seq<Call>,
    custody: seq<Custody>, published: seq<nat>, stuck: set<string>)

  const EMPTY := Pool(map[], [], [], {}, [], [], [], {})

  datatype SwitchStatus = StatusCollecting | StatusOffline | StatusOnline | StatusUnknown

  /** `Manager.Status`. */
  function StatusOf(p: Pool, id: string): SwitchStatus {
    if id in p.marks then StatusCollecting
    else if id !in p.workers || p.workers[id] >= |p.table| then StatusUnknown
    else
      var w := p.table[p.workers[id]];
      if w.down then StatusOffline else if w.last.Some? then StatusOnline else StatusUnknown
  }

  // ---------------------------------------------------------------- steps

  /** How the part of a step that the program does not decide turns out. */
  datatype Outcome =
    | Done
    | Failed
    | GotSnapshot(snap: Snapshot)
    | GotStats(stats: seq<nat>)
    | GotPorts(ports: seq<nat>)
    | FullTick
    | StatsTick
    | StopSignal

  datatype Action =
    | Invoke(call: Call)
    | Advance(k: nat, outcome: Outcome)
    | Turn(worker: nat, outcome: Outcome)
    | Probe(worker: nat, down: bool)

  predicate CallEnabled(p: Pool, c: Call, o: Outcome) {
    match c
    case Waiting(w, _) => o.Done? && w < |p.table| && p.table[w].loop.Exited?
    case Triggering(_) => o.Done? || o.Failed?
    case Collecting(_, _) => o.Failed? || o.GotSnapshot?
    case ReadingPorts(_) => o.Failed? || o.GotPorts?
    case Returned(_) => false
    case _ => o.Done?
  }

  predicate LoopEnabled(w: Worker, o: Outcome) {
    match w.loop
    case LoggingIn => o.Done? || o.Failed?
    case Fetching(full) => o.Failed? || (if full then o.GotSnapshot? else o.GotStats?)
    case Selecting => o.FullTick? || o.StatsTick? || (o.StopSignal? && w.closes > 0)
    case Exited => false
    case _ => o.Done?
  }

  predicate Enabled(p: Pool, a: Action) {
    match a
    case Invoke(c) => c.IsEntry()
    case Advance(k, o) => k < |p.calls| && CallEnabled(p, p.calls[k], o)
    case Turn(w, o) => w < |p.table| && LoopEnabled(p.table[w], o)
    case Probe(w, _) => w < |p.table|
  }

  /** What a section guarded by `w.mu` does to the cached snapshot. */
  function PutStats(view: Option<Snapshot>, stats: seq<nat>): Option<Snapshot> {
    if view.Some? && stats != [] then Some(view.value.(portStats := stats)) else view
  }

  function PutPorts(view: Option<Snapshot>, ports: seq<nat>): Option<Snapshot> {
    if view.Some? then Some(view.value.(ports := ports)) else view
  }

  function SetWorker(p: Pool, w: nat, x: Worker): Pool {
    if w < |p.table| then p.(table := p.table[w := x]) else p
  }

  function SetCall(p: Pool, k: nat, c: Call): Pool
    requires k < |p.calls|
  {
    p.(calls := p.calls[k := c])
  }

  function SetCustody(p: Pool, w: nat, c: Custody): Pool {
    if w < |p.custody| then p.(custody := p.custody[w := c]) else p
  }

  /** `w.last = cell`. */
  function SetLast(p: Pool, w: nat, cell: nat): Pool {
    if w < |p.table| then SetWorker(p, w, p.table[w].(last := Some(cell))) else p
  }

  /** Changes the snapshot that `w.last` points to, if there is one, in place. */
  function ChangeLast(p: Pool, w: nat, f: Option<Snapshot> -> Option<Snapshot>): Pool {
    if w < |p.table| && p.table[w].last.Some? && p.table[w].last.value < |p.objects| then
      var r := p.table[w].last.value;
      match f(Some(p.objects[r].snap))
      case Some(s) => p.(objects := p.objects[r := p.objects[r].(snap := s)])
      case None => p
    else p
  }

  /** `Add`: the whole of it runs under `m.mu`. */
  function StepAdd(p: Pool, k: nat, cfg: Config, collect: bool): Pool
    requires k < |p.calls|
  {
    if cfg.id in p.workers then SetCall(p, k, Returned(false))
    else
      SetCall(p, k, if collect then Marking(cfg.id) else Returned(true))
      .(workers := p.workers[cfg.id := |p.table|],
        table := p.table + [Worker(cfg, 0, LoggingIn, None, false)],
        custody := p.custody + [InPool])
  }

  /** `Remove` up to the unlock. */
  function StepRemove(p: Pool, k: nat, id: string, andThen: Option<Config>): Pool
    requires k < |p.calls|
  {
    if id !in p.workers then SetCall(p, k, Returned(false))
    else
      var w := p.workers[id];
      SetCustody(SetCall(p, k, Stopping(w, andThen)), w, HeldBy(k)).(workers := p.workers - {id})
  }

  /** `close(w.stop)`. */
  function StepClose(p: Pool, k: nat, w: nat, andThen: Option<Config>): Pool
    requires k < |p.calls|
  {
    var q := SetCall(p, k, Waiting(w, andThen));
    if w < |p.table| then SetWorker(q, w, p.table[w].(closes := p.table[w].closes + 1)) else q
  }

  /** `<-w.stopped` has returned; an update goes on to add. */
  function StepStopped(p: Pool, k: nat, w: nat, andThen: Option<Config>): Pool
    requires k < |p.calls|
  {
    SetCustody(SetCall(p, k, if andThen.Some? then Adding(andThen.value, false) else Returned(true)), w, Gone)
  }

  /** `CollectNow`'s lookup, which can fail before the mark is under its deferred delete. */
  function StepLook(p: Pool, k: nat, id: string): Pool
    requires k < |p.calls|
  {
    if id in p.workers then SetCall(p, k, Starting(id, p.workers[id]))
    else SetCall(p, k, Returned(false)).(stuck := if id in p.marks then p.stuck + {id} else p.stuck)
  }

  function StepCall(p: Pool, k: nat, o: Outcome): Pool
    requires k < |p.calls| && CallEnabled(p, p.calls[k], o)
  {
    match p.calls[k]
    case Removing(id, andThen) => StepRemove(p, k, id, andThen)
    case Stopping(w, andThen) => StepClose(p, k, w, andThen)
    case Waiting(w, andThen) => StepStopped(p, k, w, andThen)
    case Adding(cfg, collect) => StepAdd(p, k, cfg, collect)
    case Triggering(id) =>
      // The store's lookup comes first; a switch it does not know is not collected.
      SetCall(p, k, if o.Failed? then Returned(false) else if id in p.marks then Returned(true) else Marking(id))
    case Marking(id) => SetCall(p, k, Looking(id)).(marks := p.marks + {id})
    case Looking(id) => StepLook(p, k, id)
    case Starting(id, w) => SetCall(p, k, Collecting(id, w)).(marks := p.marks + {id})
    case Collecting(id, w) =>
      if o.Failed? then SetCall(p, k, Ending(id))
      else SetCall(p, k, Storing(id, w, |p.objects|))
           .(objects := p.objects + [Cell(o.snap.(switchId := id), w)])
    case Storing(id, w, cell) => SetLast(SetCall(p, k, Ending(id)), w, cell)
    case Ending(id) => SetCall(p, k, Returned(true)).(marks := p.marks - {id}, stuck := p.stuck - {id})
    case Refreshing(id) =>
      SetCall(p, k, if id in p.workers then ReadingPorts(p.workers[id]) else Returned(false))
    case ReadingPorts(w) => SetCall(p, k, if o.Failed? then Returned(false) else StoringPorts(w, o.ports))
    case StoringPorts(w, ports) => ChangeLast(SetCall(p, k, Returned(true)), w, v => PutPorts(v, ports))
  }

  function StepLoop(p: Pool, w: nat, o: Outcome): Pool
    requires w < |p.table| && LoopEnabled(p.table[w], o)
  {
    var x := p.table[w];
    match x.loop
    case LoggingIn => SetWorker(p, w, x.(loop := if o.Failed? then Selecting else Fetching(true)))
    case Fetching(full) =>
      if o.Failed? then SetWorker(p, w, x.(loop := Selecting))
      else if full then
        SetWorker(p, w, x.(loop := CachingFull(|p.objects|)))
        .(objects := p.objects + [Cell(o.snap.(switchId := x.cfg.id), w)])
      else SetWorker(p, w, x.(loop := CachingStats(o.stats)))
    case CachingFull(cell) => SetWorker(p, w, x.(last := Some(cell), loop := Publishing))
    case CachingStats(stats) =>
      var q := SetWorker(p, w, x.(loop := if x.last.Some? then Publishing else Selecting));
      ChangeLast(q, w, v => PutStats(v, stats))
    case Publishing => SetWorker(p, w, x.(loop := Selecting)).(published := p.published + [w])
    case Selecting =>
      SetWorker(p, w, x.(loop := if o.StopSignal? then Exited else Fetching(o.FullTick?)))
  }

  function Apply(p: Pool, a: Action): Pool
    requires Enabled(p, a)
  {
    match a
    case Invoke(c) => p.(calls := p.calls + [c])
    case Advance(k, o) => StepCall(p, k, o)
    case Turn(w, o) => StepLoop(p, w, o)
    case Probe(w, down) => SetWorker(p, w, p.table[w].(down := down))
  }

  /** The state a schedule leads to from `p`; `None` if it asks for a step that cannot be taken. */
  function Run(p: Pool, acts: seq<Action>): Option<Pool> {
    if acts == [] then Some(p)
    else
      var q :- Run(p, acts[..|acts| - 1]);
      if Enabled(q, acts[|acts| - 1]) then Some(Apply(q, acts[|acts| - 1])) else None
  }

  // ------------------------------------------------------------ pool safety

  /** Each worker is where its custodian says, and its stop channel is closed accordingly. */
  ghost predicate InCustody(p: Pool, w: nat)
    requires w < |p.table| == |p.custody|
  {
    var x := p.table[w];
    match p.custody[w]
    case InPool => x.cfg.id in p.workers && p.workers[x.cfg.id] == w && x.closes == 0 && !x.loop.Exited?
    case HeldBy(k) =>
      && k < |p.calls| && p.calls[k].Holds() && p.calls[k].worker == w
      && x.closes == (if p.calls[k].Stopping? then 0 else 1) && (x.loop.Exited? ==> x.closes == 1)
    case Gone => x.closes == 1 && x.loop.Exited?
  }

  ghost predicate CustodyInv(p: Pool) {
    && |p.table| == |p.custody|
    && (forall w: nat :: w < |p.table| ==> InCustody(p, w))
    && (forall id :: id in p.workers ==>
          p.workers[id] < |p.table| && p.custody[p.workers[id]].InPool? && p.table[p.workers[id]].cfg.id == id)
    && (forall k :: 0 <= k < |p.calls| && p.calls[k].Holds() ==>
          p.calls[k].worker < |p.table| && p.custody[p.calls[k].worker] == HeldBy(k))
  }

  /** A step that takes nothing into or out of the pool and starts or stops nothing. */
  ghost predicate Quiet(p: Pool, q: Pool) {
    && q.workers == p.workers && q.custody == p.custody && |q.table| == |p.table| && |q.calls| >= |p.calls|
    && (forall v: nat :: v < |p.table| ==>
          && q.table[v].cfg == p.table[v].cfg && q.table[v].closes == p.table[v].closes
          && q.table[v].loop.Exited? == p.table[v].loop.Exited?)
    && (forall k :: 0 <= k < |p.calls| ==>
          q.calls[k] == p.calls[k] || (!p.calls[k].Holds() && !q.calls[k].Holds()))
    && (forall k :: |p.calls| <= k < |q.calls| ==> !q.calls[k].Holds())
  }

  lemma QuietKeepsCustody(p: Pool, q: Pool)
    requires CustodyInv(p) && Quiet(p, q)
    ensures CustodyInv(q)
  {
    forall v: nat | v < |q.table| ensures InCustody(q, v) {
      assert InCustody(p, v);
    }
  }

  lemma AddKeepsCustody(p: Pool, k: nat, cfg: Config, collect: bool)
    requires CustodyInv(p) && k < |p.calls| && !p.calls[k].Holds()
    ensures CustodyInv(StepAdd(p, k, cfg, collect))
  {
    var q := StepAdd(p, k, cfg, collect);
    if cfg.id in p.workers {
      QuietKeepsCustody(p, q);
    } else {
      hide InCustody;
      forall v: nat | v < |q.table| ensures InCustody(q, v) {
        if v < |p.table| {
          StillInCustody(p, q, v, k);
        } else {
          NewInCustody(q, v);
        }
      }
    }
  }

  lemma NewInCustody(q: Pool, v: nat)
    requires v < |q.table| == |q.custody| && q.custody[v].InPool?
    requires q.table[v].cfg.id in q.workers && q.workers[q.table[v].cfg.id] == v
    requires q.table[v].closes == 0 && !q.table[v].loop.Exited?
    ensures InCustody(q, v)
  {
  }

  lemma StillInCustody(p: Pool, q: Pool, v: nat, k: nat)
    requires v < |p.table| == |p.custody| && v < |q.table| == |q.custody|
    requires InCustody(p, v) && q.table[v] == p.table[v] && q.custody[v] == p.custody[v]
    requires p.table[v].cfg.id in p.workers ==>
               p.table[v].cfg.id in q.workers && q.workers[p.table[v].cfg.id] == p.workers[p.table[v].cfg.id]
    requires |q.calls| == |p.calls| && k < |p.calls| && !p.calls[k].Holds()
    requires forall j :: 0 <= j < |p.calls| && j != k ==> q.calls[j] == p.calls[j]
    ensures InCustody(q, v)
  {
  }

  lemma RemoveKeepsCustody(p: Pool, k: nat, id: string, andThen: Option<Config>)
    requires CustodyInv(p) && k < |p.calls| && !p.calls[k].Holds()
    ensures CustodyInv(StepRemove(p, k, id, andThen))
  {
    var q := StepRemove(p, k, id, andThen);
    assert id in p.workers ==> InCustody(p, p.workers[id]);
    forall v: nat | v < |q.table| ensures InCustody(q, v) {
      assert InCustody(p, v);
    }
  }

  lemma CloseKeepsCustody(p: Pool, k: nat, w: nat, andThen: Option<Config>)
    requires CustodyInv(p) && k < |p.calls| && p.calls[k] == Stopping(w, andThen)
    ensures CustodyInv(StepClose(p, k, w, andThen))
  {
    var q := StepClose(p, k, w, andThen);
    assert p.custody[w] == HeldBy(k);
    forall v: nat | v < |q.table| ensures InCustody(q, v) {
      assert InCustody(p, v);
    }
  }

  lemma StoppedKeepsCustody(p: Pool, k: nat, w: nat, andThen: Option<Config>)
    requires CustodyInv(p) && k < |p.calls| && p.calls[k] == Waiting(w, andThen)
    requires w < |p.table| && p.table[w].loop.Exited?
    ensures CustodyInv(StepStopped(p, k, w, andThen))
  {
    var q := StepStopped(p, k, w, andThen);
    assert p.custody[w] == HeldBy(k) && InCustody(p, w);
    forall v: nat | v < |q.table| ensures InCustody(q, v) {
      assert InCustody(p, v);
    }
  }

  lemma ChangeLastQuiet(p: Pool, w: nat, f: Option<Snapshot> -> Option<Snapshot>)
    ensures var q := ChangeLast(p, w, f);
            q == p.(objects := q.objects) && |q.objects| == |p.objects|
  {
  }

  /** The calls that neither fill nor empty the pool: what their steps leave as it is. */
  lemma QuietShape(p: Pool, k: nat, o: Outcome)
    requires k < |p.calls| && CallEnabled(p, p.calls[k], o)
    requires !p.calls[k].Removing? && !p.calls[k].Stopping? && !p.calls[k].Waiting? && !p.calls[k].Adding?
    ensures var c, q := p.calls[k], StepCall(p, k, o);
            && q.workers == p.workers && q.custody == p.custody
            && q.calls == p.calls[k := q.calls[k]] && !q.calls[k].Holds()
            && q.table == if c.Storing? then SetLast(p, c.worker, c.cell).table else p.table
  {
    hide StepAdd, StepRemove, StepClose, StepStopped, ChangeLast;
    var c := p.calls[k];
    if c.StoringPorts? {
      ChangeLastQuiet(SetCall(p, k, Returned(true)), c.worker, v => PutPorts(v, c.ports));
    }
  }

  lemma CallIsQuiet(p: Pool, k: nat, o: Outcome)
    requires k < |p.calls| && CallEnabled(p, p.calls[k], o)
    requires !p.calls[k].Removing? && !p.calls[k].Stopping? && !p.calls[k].Waiting? && !p.calls[k].Adding?
    ensures Quiet(p, StepCall(p, k, o))
  {
    hide StepCall, CallEnabled;
    QuietShape(p, k, o);
  }

  lemma CallKeepsCustody(p: Pool, k: nat, o: Outcome)
    requires CustodyInv(p) && k < |p.calls| && CallEnabled(p, p.calls[k], o)
    ensures CustodyInv(StepCall(p, k, o))
  {
    var c := p.calls[k];
    if c.Removing? {
      RemoveKeepsCustody(p, k, c.id, c.andThen);
    } else if c.Stopping? {
      CloseKeepsCustody(p, k, c.worker, c.andThen);
    } else if c.Waiting? {
      StoppedKeepsCustody(p, k, c.worker, c.andThen);
    } else if c.Adding? {
      AddKeepsCustody(p, k, c.cfg, c.collect);
    } else {
      hide StepCall;
      CallIsQuiet(p, k, o);
      QuietKeepsCustody(p, StepCall(p, k, o));
    }
  }

  lemma LoopIsQuiet(p: Pool, w: nat, o: Outcome)
    requires w < |p.table| && LoopEnabled(p.table[w], o) && !o.StopSignal?
    ensures Quiet(p, StepLoop(p, w, o))
  {
    hide ChangeLast;
    var x := p.table[w];
    if x.loop.CachingStats? {
      ChangeLastQuiet(SetWorker(p, w, x.(loop := if x.last.Some? then Publishing else Selecting)), w,
                      v => PutStats(v, x.loop.stats));
    }
  }

  lemma LoopKeepsCustody(p: Pool, w: nat, o: Outcome)
    requires CustodyInv(p) && w < |p.table| && LoopEnabled(p.table[w], o)
    ensures CustodyInv(StepLoop(p, w, o))
  {
    if o.StopSignal? {
      var q := SetWorker(p, w, p.table[w].(loop := Exited));
      forall v: nat | v < |q.table| ensures InCustody(q, v) {
        assert InCustody(p, w) && InCustody(p, v);
      }
    } else {
      LoopIsQuiet(p, w, o);
      QuietKeepsCustody(p, StepLoop(p, w, o));
    }
  }

  // --------------------------------------------------------- snapshot cache

  /** Cell `r` was fetched for worker `w` and carries its switch's id. */
  ghost predicate Owns(p: Pool, w: nat, r: nat) {
    w < |p.table| && r < |p.objects| && p.objects[r].worker == w && p.objects[r].snap.switchId == p.table[w].cfg.id
  }

  ghost predicate WorkerCache(p: Pool, w: nat)
    requires w < |p.table|
  {
    && (p.table[w].last.Some? ==> Owns(p, w, p.table[w].last.value))
    && (p.table[w].loop.CachingFull? ==> Owns(p, w, p.table[w].loop.cell))
  }

  ghost predicate CallCache(p: Pool, c: Call) {
    match c
    case Starting(id, w) => w < |p.table| && p.table[w].cfg.id == id
    case Collecting(id, w) => w < |p.table| && p.table[w].cfg.id == id
    case Storing(id, w, r) => Owns(p, w, r) && p.table[w].cfg.id == id
    case ReadingPorts(w) => w < |p.table|
    case StoringPorts(w, _) => w < |p.table|
    case _ => true
  }

  ghost predicate CacheInv(p: Pool) {
    && (forall w: nat :: w < |p.table| ==> WorkerCache(p, w))
    && (forall k :: 0 <= k < |p.calls| ==> CallCache(p, p.calls[k]))
  }

  /** Workers and cells are only ever added, and keep their switch. */
  ghost predicate Grows(p: Pool, q: Pool) {
    && |p.table| <= |q.table| && |p.objects| <= |q.objects|
    && (forall w :: 0 <= w < |p.table| ==> q.table[w].cfg == p.table[w].cfg)
    && (forall r :: 0 <= r < |p.objects| ==>
          q.objects[r].worker == p.objects[r].worker && q.objects[r].snap.switchId == p.objects[r].snap.switchId)
  }

  lemma ChangeLastGrows(p: Pool, w: nat, f: Option<Snapshot> -> Option<Snapshot>)
    requires forall s :: f(Some(s)).Some? ==> f(Some(s)).value.switchId == s.switchId
    ensures Grows(p, ChangeLast(p, w, f))
  {
  }

  lemma CallGrows(p: Pool, k: nat, o: Outcome)
    requires k < |p.calls| && CallEnabled(p, p.calls[k], o)
    ensures Grows(p, StepCall(p, k, o))
  {
    var c := p.calls[k];
    if c.StoringPorts? {
      hide ChangeLast;
      ChangeLastGrows(SetCall(p, k, Returned(true)), c.worker, v => PutPorts(v, c.ports));
    }
  }

  lemma LoopGrows(p: Pool, w: nat, o: Outcome)
    requires w < |p.table| && LoopEnabled(p.table[w], o)
    ensures Grows(p, StepLoop(p, w, o))
  {
    var x := p.table[w];
    if x.loop.CachingStats? {
      hide ChangeLast;
      ChangeLastGrows(SetWorker(p, w, x.(loop := if x.last.Some? then Publishing else Selecting)), w,
                      v => PutStats(v, x.loop.stats));
    }
  }

  lemma CallCacheGrows(p: Pool, q: Pool, c: Call)
    requires Grows(p, q) && CallCache(p, c)
    ensures CallCache(q, c)
  {
  }

  lemma WorkerCacheGrows(p: Pool, q: Pool, w: nat)
    requires Grows(p, q) && w < |p.table| && WorkerCache(p, w)
    requires q.table[w].last == p.table[w].last && q.table[w].loop == p.table[w].loop
    ensures WorkerCache(q, w)
  {
  }

  /** A call step moves that call alone, and leaves every worker's loop and all but its own worker's cache. */
  lemma CallFrame(p: Pool, k: nat, o: Outcome)
    requires k < |p.calls| && CallEnabled(p, p.calls[k], o)
    ensures var q := StepCall(p, k, o);
            && |q.calls| == |p.calls| && |p.table| <= |q.table|
            && (forall j :: 0 <= j < |p.calls| && j != k ==> q.calls[j] == p.calls[j])
            && (forall w: nat :: w < |p.table| ==>
                  && q.table[w].loop == p.table[w].loop
                  && (!(p.calls[k].Storing? && p.calls[k].worker == w) ==> q.table[w].last == p.table[w].last))
            && (forall w: nat :: |p.table| <= w < |q.table| ==>
                  q.table[w].last == None && !q.table[w].loop.CachingFull?)
  {
    var c := p.calls[k];
    if c.StoringPorts? {
      hide ChangeLast;
      ChangeLastQuiet(SetCall(p, k, Returned(true)), c.worker, v => PutPorts(v, c.ports));
    }
  }

  lemma NewCallCache(p: Pool, k: nat, o: Outcome)
    requires CustodyInv(p) && k < |p.calls| && CallEnabled(p, p.calls[k], o) && CallCache(p, p.calls[k])
    ensures CallCache(StepCall(p, k, o), StepCall(p, k, o).calls[k])
  {
    hide ChangeLast;
    var c := p.calls[k];
    if c.Removing? || c.Stopping? || c.Waiting? || c.Adding? {
    } else {
      hide StepAdd, StepRemove, StepClose, StepStopped, CustodyInv;
      if c.StoringPorts? {
        ChangeLastQuiet(SetCall(p, k, Returned(true)), c.worker, v => PutPorts(v, c.ports));
      } else if c.Looking? || c.Refreshing? {
        LooksUpOwn(p, c.id);
      }
    }
  }

  lemma LooksUpOwn(p: Pool, id: string)
    requires CustodyInv(p)
    ensures id in p.workers ==> p.workers[id] < |p.table| && p.table[p.workers[id]].cfg.id == id
  {
  }

  lemma StoredCache(p: Pool, k: nat, o: Outcome)
    requires k < |p.calls| && CallEnabled(p, p.calls[k], o) && p.calls[k].Storing? && CallCache(p, p.calls[k])
    requires WorkerCache(p, p.calls[k].worker)
    ensures p.calls[k].worker < |StepCall(p, k, o).table| && WorkerCache(StepCall(p, k, o), p.calls[k].worker)
  {
  }

  lemma NewWorkerCache(p: Pool, w: nat)
    requires w < |p.table| && p.table[w].last == None && !p.table[w].loop.CachingFull?
    ensures WorkerCache(p, w)
  {
  }

  lemma CallKeepsCache(p: Pool, k: nat, o: Outcome)
    requires CustodyInv(p) && CacheInv(p) && k < |p.calls| && CallEnabled(p, p.calls[k], o)
    ensures CacheInv(StepCall(p, k, o))
  {
    hide StepCall, CallCache, WorkerCache, Owns, CustodyInv;
    CallGrows(p, k, o);
    CallFrame(p, k, o);
    NewCallCache(p, k, o) by {
      assert CallCache(p, p.calls[k]);
    }
    var q := StepCall(p, k, o);
    forall w: nat | w < |q.table| ensures WorkerCache(q, w) {
      if w >= |p.table| {
        NewWorkerCache(q, w);
      } else if p.calls[k].Storing? && p.calls[k].worker == w {
        assert WorkerCache(p, w);
        StoredCache(p, k, o);
      } else {
        WorkerCacheGrows(p, q, w);
      }
    }
    forall j | 0 <= j < |q.calls| ensures CallCache(q, q.calls[j]) {
      if j != k {
        CallCacheGrows(p, q, p.calls[j]);
      }
    }
  }

  lemma LoopKeepsCache(p: Pool, w: nat, o: Outcome)
    requires CacheInv(p) && w < |p.table| && LoopEnabled(p.table[w], o)
    ensures CacheInv(StepLoop(p, w, o))
  {
    hide StepLoop, CallCache, WorkerCache, Owns, LoopEnabled;
    LoopGrows(p, w, o);
    LoopFrame(p, w, o);
    var q := StepLoop(p, w, o);
    forall v: nat | v < |q.table| ensures WorkerCache(q, v) {
      if v == w {
        OwnWorkerCache(p, w, o);
      } else {
        WorkerCacheGrows(p, q, v);
      }
    }
    forall j | 0 <= j < |q.calls| ensures CallCache(q, q.calls[j]) {
      CallCacheGrows(p, q, p.calls[j]);
    }
  }

  /** A loop step touches its own worker alone, and no call. */
  lemma LoopFrame(p: Pool, w: nat, o: Outcome)
    requires w < |p.table| && LoopEnabled(p.table[w], o)
    ensures var q := StepLoop(p, w, o);
            && q.calls == p.calls && |q.table| == |p.table|
            && forall v: nat :: v < |p.table| && v != w ==> q.table[v] == p.table[v]
  {
    hide ChangeLast;
    var x := p.table[w];
    if x.loop.CachingStats? {
      ChangeLastQuiet(SetWorker(p, w, x.(loop := if x.last.Some? then Publishing else Selecting)), w,
                      v => PutStats(v, x.loop.stats));
    }
  }

  lemma OwnWorkerCache(p: Pool, w: nat, o: Outcome)
    requires w < |p.table| && LoopEnabled(p.table[w], o) && WorkerCache(p, w)
    ensures w < |StepLoop(p, w, o).table| && WorkerCache(StepLoop(p, w, o), w)
  {
    var x := p.table[w];
    if x.loop.CachingStats? {
      var r := SetWorker(p, w, x.(loop := if x.last.Some? then Publishing else Selecting));
      assert WorkerCache(r, w);
      hide ChangeLast;
      ChangeLastQuiet(r, w, v => PutStats(v, x.loop.stats));
      ChangeLastGrows(r, w, v => PutStats(v, x.loop.stats));
    }
  }

  /** What `w.last` shows: a copy of the snapshot it points to. */
  function View(p: Pool, w: nat): Option<Snapshot>
    requires w < |p.table|
  {
    if p.table[w].last.Some? && p.table[w].last.value < |p.objects|
    then Some(p.objects[p.table[w].last.value].snap) else None
  }

  /** No two workers share a snapshot, so an in-place change shows in one cache only. */
  lemma ChangeLastView(p: Pool, w: nat, f: Option<Snapshot> -> Option<Snapshot>, v: nat)
    requires w < |p.table| && v < |p.table| && WorkerCache(p, w) && WorkerCache(p, v)
    requires forall s :: f(Some(s)).Some?
    ensures var q := ChangeLast(p, w, f);
            View(q, v) == if v == w && View(p, v).Some? then f(View(p, v)) else View(p, v)
  {
  }

  lemma CallView(p: Pool, k: nat, o: Outcome, v: nat)
    requires CacheInv(p) && k < |p.calls| && CallEnabled(p, p.calls[k], o) && v < |p.table|
    ensures v < |StepCall(p, k, o).table|
    ensures View(StepCall(p, k, o), v) ==
            match p.calls[k]
            case Storing(_, w, r) => if w == v && r < |p.objects| then Some(p.objects[r].snap) else View(p, v)
            case StoringPorts(w, ports) => if w == v then PutPorts(View(p, v), ports) else View(p, v)
            case _ => View(p, v)
  {
    hide StepCall, CallEnabled, PutPorts;
    assert WorkerCache(p, v) && CallCache(p, p.calls[k]);
    CallFrame(p, k, o);
    CallObjects(p, k, o);
    if p.calls[k].StoringPorts? {
      PortsView(p, k, o, v);
    }
  }

  /** No call step changes a snapshot in place, except the one that stores ports; a stored cell becomes the cache. */
  lemma CallObjects(p: Pool, k: nat, o: Outcome)
    requires k < |p.calls| && CallEnabled(p, p.calls[k], o)
    ensures var c, q := p.calls[k], StepCall(p, k, o);
            && (!c.StoringPorts? ==> |p.objects| <= |q.objects| && q.objects[..|p.objects|] == p.objects)
            && (c.Storing? && c.worker < |p.table| ==> q.table[c.worker].last == Some(c.cell))
  {
    hide ChangeLast;
  }

  lemma PortsView(p: Pool, k: nat, o: Outcome, v: nat)
    requires CacheInv(p) && k < |p.calls| && CallEnabled(p, p.calls[k], o) && p.calls[k].StoringPorts? && v < |p.table|
    ensures v < |StepCall(p, k, o).table|
    ensures View(StepCall(p, k, o), v) ==
            if p.calls[k].worker == v then PutPorts(View(p, v), p.calls[k].ports) else View(p, v)
  {
    hide ChangeLast, PutPorts;
    var c := p.calls[k];
    var q := SetCall(p, k, Returned(true));
    assert WorkerCache(p, v) && CallCache(p, c) && WorkerCache(p, c.worker);
    WorkerCacheGrows(p, q, c.worker);
    WorkerCacheGrows(p, q, v);
    var f := x => PutPorts(x, c.ports);
    ChangeLastQuiet(q, c.worker, f);
    PutPortsIsSome(c.ports);
    ChangeLastView(q, c.worker, f, v);
  }

  lemma PutPortsIsSome(ports: seq<nat>)
    ensures forall s :: PutPorts(Some(s), ports).Some?
    ensures PutPorts(None, ports) == None
  {
  }

  lemma LoopView(p: Pool, w: nat, o: Outcome, v: nat)
    requires CacheInv(p) && w < |p.table| && LoopEnabled(p.table[w], o) && v < |p.table|
    ensures v < |StepLoop(p, w, o).table|
    ensures View(StepLoop(p, w, o), v) ==
            match p.table[w].loop
            case CachingFull(r) => if w == v && r < |p.objects| then Some(p.objects[r].snap) else View(p, v)
            case CachingStats(stats) => if w == v then PutStats(View(p, v), stats) else View(p, v)
            case _ => View(p, v)
  {
    var x := p.table[w];
    assert WorkerCache(p, v) && WorkerCache(p, w);
    if x.loop.CachingStats? {
      hide ChangeLast;
      var f := y => PutStats(y, x.loop.stats);
      var q := SetWorker(p, w, x.(loop := if x.last.Some? then Publishing else Selecting));
      assert WorkerCache(q, w) && WorkerCache(q, v);
      ChangeLastQuiet(q, w, f);
      ChangeLastView(q, w, f, v);
    }
  }

  // ------------------------------------------------------- collecting marks

  /** A mark that no failed lookup left behind belongs to a collection that will still clear it. */
  ghost predicate MarkInv(p: Pool, id: string) {
    && (id in p.stuck ==> id in p.marks)
    && (id in p.marks && id !in p.stuck ==> exists k :: 0 <= k < |p.calls| && p.calls[k].Live(id))
  }

  lemma CallKeepsMarks(p: Pool, k: nat, o: Outcome, id: string)
    requires MarkInv(p, id) && k < |p.calls| && CallEnabled(p, p.calls[k], o)
    ensures MarkInv(StepCall(p, k, o), id)
  {
    var c, q := p.calls[k], StepCall(p, k, o);
    CallFrame(p, k, o);
    CallMarks(p, k, o, id);
    if id in q.marks && id !in q.stuck {
      hide StepCall;
      if !q.calls[k].Live(id) {
        var j :| 0 <= j < |p.calls| && p.calls[j].Live(id);
        assert q.calls[j].Live(id);
      }
    }
  }

  /** How a call step changes the mark of switch `id`, and that it never loses a live collection unnoticed. */
  lemma CallMarks(p: Pool, k: nat, o: Outcome, id: string)
    requires k < |p.calls| && CallEnabled(p, p.calls[k], o)
    ensures var c, q := p.calls[k], StepCall(p, k, o);
            && |q.calls| == |p.calls|
            && (id in q.marks <==>
                  (id in p.marks || c == Marking(id) || (c.Starting? && c.id == id)) && c != Ending(id))
            && (id in q.stuck <==>
                  (id in p.stuck || (c == Looking(id) && id !in p.workers && id in p.marks)) && c != Ending(id))
            && (c.Live(id) ==> q.calls[k].Live(id) || c == Ending(id) || (c == Looking(id) && id !in p.workers))
            && (c == Marking(id) ==> q.calls[k].Live(id))
  {
    var c := p.calls[k];
    if c.StoringPorts? {
      hide ChangeLast;
      ChangeLastQuiet(SetCall(p, k, Returned(true)), c.worker, v => PutPorts(v, c.ports));
    }
  }

  lemma LoopKeepsMarks(p: Pool, w: nat, o: Outcome)
    requires w < |p.table| && LoopEnabled(p.table[w], o)
    ensures var q := StepLoop(p, w, o);
            q.marks == p.marks && q.stuck == p.stuck && q.calls == p.calls && q.workers == p.workers
  {
    var x := p.table[w];
    if x.loop.CachingStats? {
      hide ChangeLast;
      ChangeLastQuiet(SetWorker(p, w, x.(loop := if x.last.Some? then Publishing else Selecting)), w,
                      v => PutStats(v, x.loop.stats));
    }
  }
}
