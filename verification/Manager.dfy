/**
  * The sections of the manager and of a worker that run under a lock, on the objects they update in place.
  * `PoolRuns` and `PoolMarks` state what every interleaving of these sections keeps.
  */
module Manager {
  import opened Pool
  import opened Wrappers

  /** A snapshot that pointers share. */
  class Shared {
    var snap: Snapshot

    constructor (snap: Snapshot)
      ensures this.snap == snap
    {
      this.snap := snap;
    }
  }

  class Worker {
    const cfg: Config
    var last: Shared?
    var closed: bool
    var down: bool

    constructor (cfg: Config)
      ensures this.cfg == cfg && last == null && !closed && !down
    {
      this.cfg := cfg;
      last, closed, down := null, false, false;
    }

    ghost function View(): Option<Snapshot>
      reads this, last
    {
      if last == null then None else Some(last.snap)
    }
  }

  class Manager {
    var workers: map<string, Worker>
    var collecting: set<string>
    /** Every worker ever started; the pool holds those that were not removed. */
    ghost var started: set<Worker>

    ghost function Objects(): set<Shared>
      reads this, started
    {
      set w | w in started && w.last != null :: w.last
    }

    ghost predicate Valid()
      reads this, started, Objects()
    {
      && (forall id :: id in workers ==> workers[id] in started && workers[id].cfg.id == id && !workers[id].closed)
      && (forall w :: w in started && w.last != null ==> w.last.snap.switchId == w.cfg.id)
      && (forall v, w :: v in started && w in started && v != w && v.last != null ==> v.last != w.last)
    }

    /** What each pooled switch's cache shows. */
    ghost function Caches(): map<string, Option<Snapshot>>
      requires Valid()
      reads this, started, Objects()
    {
      map id | id in workers :: workers[id].View()
    }

    constructor ()
      ensures Valid() && Caches() == map[] && collecting == {} && started == {}
    {
      workers, collecting, started := map[], {}, {};
    }

    lemma Pooled(id: string)
      requires Valid()
      ensures id in workers <==> id in Caches()
      ensures id in workers ==> workers[id] in started && workers[id].cfg.id == id
    {
    }

    /** A new worker joins the pool under its id, and nothing else changes. */
    twostate lemma Joins(new w: Worker)
      requires old(Valid()) && w.cfg.id !in old(workers) && w !in old(started) && w.last == null && !w.closed
      requires workers == old(workers)[w.cfg.id := w] && started == old(started) + {w}
      requires forall v :: v in old(started) ==> v.last == old(v.last) && v.closed == old(v.closed)
      requires forall s: Shared :: old(allocated(s)) ==> s.snap == old(s.snap)
      ensures Valid() && Caches() == old(Caches())[w.cfg.id := None]
    {
      assert forall id :: id in old(workers) ==> workers[id] == old(workers)[id] && workers[id] in old(started);
    }

    method Add(cfg: Config) returns (ok: bool)
      requires Valid()
      modifies this
      ensures Valid() && collecting == old(collecting)
      ensures ok <==> cfg.id !in old(Caches())
      ensures Caches() == if ok then old(Caches())[cfg.id := None] else old(Caches())
      ensures ok ==> cfg.id in workers && fresh(workers[cfg.id]) && workers[cfg.id].cfg == cfg
      ensures forall id :: id in old(workers) ==> id in workers && workers[id] == old(workers)[id]
    {
      hide Valid, Caches, Objects;
      Pooled(cfg.id);
      if cfg.id in workers {
        return false;
      }
      var w := new Worker(cfg);
      workers := workers[cfg.id := w];
      started := started + {w};
      Joins(w);
      return true;
    }

    /** `Remove` up to the unlock: from here on the caller alone holds the worker. */
    method TakeOut(id: string) returns (w: Worker?)
      requires Valid()
      modifies `workers
      ensures Valid()
      ensures w != null <==> id in old(Caches())
      ensures w != null ==> w == old(workers)[id] && !w.closed
      ensures Caches() == old(Caches()) - {id}
      ensures forall i :: i in workers ==> workers[i] != w
    {
      if id !in workers {
        return null;
      }
      w := workers[id];
      workers := workers - {id};
    }

    /** The store at the end of a successful full collection, by the loop or by `CollectNow`. */
    method StoreSnapshot(w: Worker, snap: Snapshot) returns (stored: Shared)
      requires Valid() && w in started
      modifies w`last
      ensures Valid() && fresh(stored) && w.last == stored && stored.snap == snap.(switchId := w.cfg.id)
      ensures Caches() ==
              if w.cfg.id in workers && workers[w.cfg.id] == w
              then old(Caches())[w.cfg.id := Some(snap.(switchId := w.cfg.id))] else old(Caches())
    {
      stored := new Shared(snap.(switchId := w.cfg.id));
      w.last := stored;
    }

    /** The guarded part of `collectStats`; `shown` is the snapshot handed to `onSnap`, if any. */
    method StoreStats(w: Worker, stats: seq<nat>) returns (shown: Shared?)
      requires Valid() && w in started
      modifies w.last
      ensures Valid() && shown == w.last && w.View() == PutStats(old(w.View()), stats)
      ensures Caches() ==
              if w.cfg.id in workers && workers[w.cfg.id] == w
              then old(Caches())[w.cfg.id := PutStats(old(w.View()), stats)] else old(Caches())
    {
      if w.last != null && |stats| > 0 {
        w.last.snap := w.last.snap.(portStats := stats);
      }
      shown := w.last;
    }

    /** The guarded part of `RefreshPorts`. */
    method StorePorts(w: Worker, ports: seq<nat>)
      requires Valid() && w in started
      modifies w.last
      ensures Valid() && w.View() == PutPorts(old(w.View()), ports)
      ensures Caches() ==
              if w.cfg.id in workers && workers[w.cfg.id] == w
              then old(Caches())[w.cfg.id := PutPorts(old(w.View()), ports)] else old(Caches())
    {
      if w.last != null {
        w.last.snap := w.last.snap.(ports := ports);
      }
    }

    /** The marks are no part of what the caches show. */
    twostate lemma OnlyMarks()
      requires old(Valid()) && workers == old(workers) && started == old(started)
      requires forall w :: w in started ==> w.last == old(w.last) && w.closed == old(w.closed)
      requires forall s: Shared :: old(allocated(s)) ==> s.snap == old(s.snap)
      ensures Valid() && Caches() == old(Caches())
    {
    }

    /** `CollectNow` from its lookup to its end, when nothing else runs; `result` is what the switch answered. */
    method CollectNow(id: string, result: Option<Snapshot>) returns (got: Shared?)
      requires Valid()
      modifies `collecting, started`last
      ensures Valid() && workers == old(workers)
      ensures id !in old(Caches()) ==> got == null && collecting == old(collecting) && Caches() == old(Caches())
      ensures id in old(Caches()) ==>
                && collecting == old(collecting) - {id}
                && (got != null <==> result.Some?)
                && Caches()
                   == if result.Some? then old(Caches())[id := Some(result.value.(switchId := id))] else old(Caches())
    {
      hide Valid, Caches, Objects;
      Pooled(id);
      if id !in workers {
        return null;
      }
      var w := workers[id];
      collecting := collecting + {id};
      OnlyMarks();
      got := null;
      if result.Some? {
        got := StoreSnapshot(w, result.value);
      }
      label Stored:
      collecting := collecting - {id};
      OnlyMarks@Stored();
    }

    /** The shared object itself, not a copy; null stands for either error. */
    method LastSnapshot(id: string) returns (s: Shared?)
      requires Valid()
      ensures s != null <==> id in Caches() && Caches()[id].Some?
      ensures s != null ==> s == workers[id].last && s.snap == Caches()[id].value && s.snap.switchId == id
    {
      if id !in workers {
        return null;
      }
      return workers[id].last;
    }

    method Status(id: string) returns (s: SwitchStatus)
      requires Valid()
      ensures s == StatusCollecting <==> id in collecting
      ensures s == StatusOffline <==> id !in collecting && id in workers && workers[id].down
      ensures s == StatusOnline <==> id !in collecting && id in workers && !workers[id].down && Caches()[id].Some?
    {
      if id in collecting {
        return StatusCollecting;
      }
      if id !in workers {
        return StatusUnknown;
      }
      var w := workers[id];
      if w.down {
        return StatusOffline;
      }
      return if w.last != null then StatusOnline else StatusUnknown;
    }
  }
}
