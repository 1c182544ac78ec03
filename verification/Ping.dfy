/** Reachability of one switch: the failure counter, its threshold and the transitions it announces. */
module Ping {
  import opened Wrappers

  const PING_THRESHOLD := 2

  // ------------------------------------------------------- the probe fields

  /** The worker's fields that `pingMu` guards. */
  datatype Fields = Fields(consec: nat, ready: bool, down: bool, wasDown: bool)

  const FRESH := Fields(0, false, false, false)

  /** The part of `doPing` that counts the probe's outcome. */
  function Count(f: Fields, failed: bool): Fields {
    if failed
    then f.(ready := true, consec := f.consec + 1, down := f.down || f.consec + 1 >= PING_THRESHOLD)
    else f.(ready := true, consec := 0, down := false)
  }

  /** The part that detects a flip: the new fields and the `online` argument of the callback, if any. */
  function Decide(f: Fields): (Fields, Option<bool>) {
    if f.down != f.wasDown then (f.(wasDown := f.down), Some(!f.down)) else (f, None)
  }

  // --------------------------------------------------- one probe at a time

  /** The fields after a history of probe outcomes (`true` is a failure). */
  function After(log: seq<bool>): Fields {
    if log == [] then FRESH else Decide(Count(After(log[..|log| - 1]), log[|log| - 1])).0
  }

  /** The transitions decided during a history, oldest first. */
  function Events(log: seq<bool>): seq<bool> {
    if log == [] then []
    else
      var before := log[..|log| - 1];
      match Decide(Count(After(before), log[|log| - 1])).1
      case None => Events(before)
      case Some(online) => Events(before) + [online]
  }

  /** The length of the run of failures that ends a history. */
  function Trailing(log: seq<bool>): nat {
    if log == [] || !log[|log| - 1] then 0 else 1 + Trailing(log[..|log| - 1])
  }

  /** The counter is the trailing failure run, and all three flags follow from it. */
  lemma {:induction false} AfterIs(log: seq<bool>)
    ensures var down := Trailing(log) >= PING_THRESHOLD; After(log) == Fields(Trailing(log), log != [], down, down)
  {
    if log != [] {
      AfterIs(log[..|log| - 1]);
    }
  }

  /** The lengths of the failure runs that the successes of a history separate, oldest first. */
  function Streaks(log: seq<bool>): (r: seq<nat>)
    ensures r != []
  {
    if log == [] then [0]
    else
      var r := Streaks(log[..|log| - 1]);
      if log[|log| - 1] then r[..|r| - 1] + [r[|r| - 1] + 1] else r + [0]
  }

  /** How many of the given runs are long enough to put a switch offline. */
  function Long(runs: seq<nat>): nat {
    if runs == [] then 0 else Long(runs[..|runs| - 1]) + if runs[|runs| - 1] >= PING_THRESHOLD then 1 else 0
  }

  function Times(events: seq<bool>, online: bool): nat {
    if events == [] then 0
    else Times(events[..|events| - 1], online) + if events[|events| - 1] == online then 1 else 0
  }

  /** The last run is the trailing one. */
  lemma {:induction false} LastStreak(log: seq<bool>)
    ensures var r := Streaks(log); r[|r| - 1] == Trailing(log)
  {
    if log != [] {
      LastStreak(log[..|log| - 1]);
    }
  }

  lemma TimesSnoc(events: seq<bool>, online: bool, e: bool)
    ensures Times(events + [e], online) == Times(events, online) + if e == online then 1 else 0
  {
    assert (events + [e])[..|events|] == events;
  }

  /** The transition that one more probe decides. */
  lemma NextEvent(log: seq<bool>, failed: bool)
    ensures Events(log + [failed]) ==
            if failed && Trailing(log) == PING_THRESHOLD - 1 then Events(log) + [false]
            else if !failed && Trailing(log) >= PING_THRESHOLD then Events(log) + [true]
            else Events(log)
    ensures Trailing(log + [failed]) == if failed then Trailing(log) + 1 else 0
  {
    var l := log + [failed];
    assert l[..|l| - 1] == log;
    AfterIs(log);
  }

  /** `Long` runs, all of them and all that have ended, after one more probe. */
  lemma NextLong(log: seq<bool>, failed: bool)
    ensures var r0, r := Streaks(log), Streaks(log + [failed]);
            && Long(r0) == Long(r0[..|r0| - 1]) + (if Trailing(log) >= PING_THRESHOLD then 1 else 0)
            && Long(r[..|r| - 1]) == (if failed then Long(r0[..|r0| - 1]) else Long(r0))
            && Long(r) == Long(r[..|r| - 1]) + if failed && Trailing(log) + 1 >= PING_THRESHOLD then 1 else 0
  {
    LastStreak(log);
    assert (log + [failed])[..|log|] == log;
    var r0, r := Streaks(log), Streaks(log + [failed]);
    assert r[..|r| - 1] == if failed then r0[..|r0| - 1] else r0;
  }

  /**
    * One offline per maximal failure run that reaches the threshold, and one online per such run that
    * has ended; so the two counts differ by at most one, and by one exactly while the switch is down.
    */
  lemma {:induction false} OnePerRun(log: seq<bool>)
    ensures var r := Streaks(log);
            && Times(Events(log), false) == Long(r)
            && Times(Events(log), true) == Long(r[..|r| - 1])
    ensures Times(Events(log), false) - Times(Events(log), true) == if After(log).down then 1 else 0
  {
    AfterIs(log);
    if log != [] {
      hide Events, Times, Streaks, Long, After;
      var before, failed := log[..|log| - 1], log[|log| - 1];
      assert before + [failed] == log;
      OnePerRun(before);
      NextLong(before, failed);
      NextEvent(before, failed);
      TimesSnoc(Events(before), false, !failed);
      TimesSnoc(Events(before), true, !failed);
    }
  }

  /** Transitions alternate, starting with offline. */
  ghost predicate Alternates(events: seq<bool>) {
    forall i :: 0 <= i < |events| ==> events[i] == (i % 2 == 1)
  }

  lemma {:induction false} EventsAlternate(log: seq<bool>)
    ensures Alternates(Events(log))
    ensures |Events(log)| % 2 == if After(log).down then 1 else 0
  {
    AfterIs(log);
    if log != [] {
      var before, failed := log[..|log| - 1], log[|log| - 1];
      assert before + [failed] == log;
      EventsAlternate(before);
      AfterIs(before);
      NextEvent(before, failed);
    }
  }

  /** Recording one more outcome. */
  lemma LogSnoc(log: seq<bool>, failed: bool)
    ensures var (f, fire) := Decide(Count(After(log), failed));
            && After(log + [failed]) == f
            && Events(log + [failed]) == Events(log) + if fire.Some? then [fire.value] else []
  {
    assert (log + [failed])[..|log|] == log;
  }

  // ------------------------------------------------------------- the object

  /** The worker's probe fields, updated in place. */
  class Prober {
    var consec: nat
    var ready: bool
    var down: bool
    var wasDown: bool
    /** The outcomes recorded so far. */
    ghost var log: seq<bool>

    ghost predicate Valid()
      reads this
    {
      Fields(consec, ready, down, wasDown) == After(log)
    }

    constructor ()
      ensures Valid() && log == []
    {
      consec, ready, down, wasDown := 0, false, false, false;
      log := [];
    }

    /** Down once the history ends in enough failures, and never before the first probe. */
    method IsDown() returns (b: bool)
      requires Valid()
      ensures b <==> Trailing(log) >= PING_THRESHOLD
    {
      AfterIs(log);
      b := ready && down;
    }

    /** One uninterrupted pass through the critical section of `doPing`; `fire` is the transition to announce. */
    method Record(failed: bool) returns (fire: Option<bool>)
      requires Valid()
      modifies this
      ensures Valid() && log == old(log) + [failed]
      ensures Events(log) == Events(old(log)) + if fire.Some? then [fire.value] else []
    {
      LogSnoc(log, failed);
      ready := true;
      if failed {
        consec := consec + 1;
        if consec >= PING_THRESHOLD {
          down := true;
        }
      } else {
        consec := 0;
        down := false;
      }
      fire := None;
      if down != wasDown {
        wasDown := down;
        fire := Some(!down);
      }
      log := log + [failed];
    }
  }

  // ------------------------------------------------ probes in flight together

  /** Where one `doPing` call stands. */
  datatype Phase =
    | Dialing
    | Locked(failed: bool)
    | Counted(failed: bool)
    | Announcing(online: bool)
    | Announced
    | Relocked
    | Returned
  {
    predicate HoldsLock() {
      Locked? || Counted? || Relocked?
    }
  }

  /**
    * Any number of probes, the mutex, the fields it guards, and three histories: the outcomes in the
    * order they were recorded, the transitions decided, and the callbacks delivered.
    */
  datatype System = System(
    owner: Option<nat>, fields: Fields, probes: seq<Phase>,
    log: seq<bool>, decided: seq<bool>, delivered: seq<bool>)

  const IDLE := System(None, FRESH, [], [], [], [])

  datatype Action =
    | Spawn
    | Lock(probe: nat, failed: bool)
    | CountIt(probe: nat)
    | DecideIt(probe: nat)
    | Deliver(probe: nat)
    | Relock(probe: nat)
    | Unlock(probe: nat)

  predicate Enabled(s: System, a: Action) {
    match a
    case Spawn => true
    case Lock(p, _) => p < |s.probes| && s.probes[p].Dialing? && s.owner == None
    case CountIt(p) => p < |s.probes| && s.probes[p].Locked?
    case DecideIt(p) => p < |s.probes| && s.probes[p].Counted?
    case Deliver(p) => p < |s.probes| && s.probes[p].Announcing?
    case Relock(p) => p < |s.probes| && s.probes[p].Announced? && s.owner == None
    case Unlock(p) => p < |s.probes| && s.probes[p].Relocked?
  }

  function Apply(s: System, a: Action): System
    requires Enabled(s, a)
  {
    match a
    case Spawn => s.(probes := s.probes + [Dialing])
    case Lock(p, failed) =>
      s.(owner := Some(p), probes := s.probes[p := Locked(failed)])
    case CountIt(p) =>
      s.(fields := Count(s.fields, s.probes[p].failed), probes := s.probes[p := Counted(s.probes[p].failed)])
    case DecideIt(p) =>
      var (f, fire) := Decide(s.fields);
      // Either way the lock is given up here: by the deferred unlock, or before the callback.
      s.(owner := None, fields := f,
         probes := s.probes[p := if fire.Some? then Announcing(fire.value) else Returned],
         log := s.log + [s.probes[p].failed],
         decided := s.decided + if fire.Some? then [fire.value] else [])
    case Deliver(p) => s.(probes := s.probes[p := Announced], delivered := s.delivered + [s.probes[p].online])
    case Relock(p) => s.(owner := Some(p), probes := s.probes[p := Relocked])
    case Unlock(p) => s.(owner := None, probes := s.probes[p := Returned])
  }

  /** The state a schedule leads to; `None` if the schedule asks for a step that cannot be taken. */
  function Run(acts: seq<Action>): Option<System> {
    if acts == [] then Some(IDLE)
    else
      var s :- Run(acts[..|acts| - 1]);
      if Enabled(s, acts[|acts| - 1]) then Some(Apply(s, acts[|acts| - 1])) else None
  }

  /** How many probes have decided to announce `online` and not yet done so. */
  function Owed(probes: seq<Phase>, online: bool): nat {
    if probes == [] then 0
    else Owed(probes[..|probes| - 1], online) + if probes[|probes| - 1] == Announcing(online) then 1 else 0
  }

  lemma {:induction false} OwedUpdate(probes: seq<Phase>, p: nat, ph: Phase, online: bool)
    requires p < |probes|
    ensures Owed(probes[p := ph], online) + (if probes[p] == Announcing(online) then 1 else 0) ==
            Owed(probes, online) + if ph == Announcing(online) then 1 else 0
  {
    var n := |probes| - 1;
    if p < n {
      OwedUpdate(probes[..n], p, ph, online);
      assert probes[p := ph][..n] == probes[..n][p := ph];
    } else {
      assert probes[p := ph][..n] == probes[..n];
    }
  }

  /** Exactly the owner of the mutex is inside the critical section. */
  ghost predicate LockInv(s: System) {
    && (s.owner.Some? ==> s.owner.value < |s.probes|)
    && forall p :: 0 <= p < |s.probes| ==> (s.probes[p].HoldsLock() <==> s.owner == Some(p))
  }

  ghost predicate FieldInv(s: System) {
    && s.decided == Events(s.log)
    && s.fields ==
       if s.owner.Some? && s.owner.value < |s.probes| && s.probes[s.owner.value].Counted?
       then Count(After(s.log), s.probes[s.owner.value].failed) else After(s.log)
  }

  /** Every decided transition has either been delivered or is still owed. */
  ghost predicate DeliveryInv(s: System, online: bool) {
    Times(s.decided, online) == Times(s.delivered, online) + Owed(s.probes, online)
  }

  ghost predicate Inv(s: System) {
    LockInv(s) && FieldInv(s) && DeliveryInv(s, false) && DeliveryInv(s, true)
  }

  lemma StepKeepsLock(s: System, a: Action)
    requires LockInv(s) && Enabled(s, a)
    ensures LockInv(Apply(s, a))
  {
    hide Count, Decide;
  }

  lemma StepKeepsFields(s: System, a: Action)
    requires LockInv(s) && FieldInv(s) && Enabled(s, a)
    ensures FieldInv(Apply(s, a))
  {
    hide Count, Decide, After, Events;
    if a.DecideIt? {
      LogSnoc(s.log, s.probes[a.probe].failed);
    }
  }

  /** A spawned probe owes nothing. */
  lemma OwedSnoc(probes: seq<Phase>, online: bool)
    ensures Owed(probes + [Dialing], online) == Owed(probes, online)
  {
    assert (probes + [Dialing])[..|probes|] == probes;
  }

  lemma StepKeepsDeliveries(s: System, a: Action, online: bool)
    requires DeliveryInv(s, online) && Enabled(s, a)
    ensures DeliveryInv(Apply(s, a), online)
  {
    hide Count, Decide, Times, Owed;
    var t := Apply(s, a);
    match a
    case Spawn => OwedSnoc(s.probes, online);
    case DecideIt(p) =>
      OwedUpdate(s.probes, p, t.probes[p], online);
      if t.probes[p].Announcing? {
        TimesSnoc(s.decided, online, t.probes[p].online);
      } else {
        assert s.decided + [] == s.decided;
      }
    case Deliver(p) =>
      OwedUpdate(s.probes, p, Announced, online);
      TimesSnoc(s.delivered, online, s.probes[p].online);
    case Lock(p, failed) => OwedUpdate(s.probes, p, Locked(failed), online);
    case CountIt(p) => OwedUpdate(s.probes, p, Counted(s.probes[p].failed), online);
    case Relock(p) => OwedUpdate(s.probes, p, Relocked, online);
    case Unlock(p) => OwedUpdate(s.probes, p, Returned, online);
  }

  lemma {:induction false} RunKeepsInv(acts: seq<Action>)
    requires Run(acts).Some?
    ensures Inv(Run(acts).value)
  {
    if acts != [] {
      RunKeepsInv(acts[..|acts| - 1]);
      var s := Run(acts[..|acts| - 1]).value;
      StepKeepsLock(s, acts[|acts| - 1]);
      StepKeepsFields(s, acts[|acts| - 1]);
      StepKeepsDeliveries(s, acts[|acts| - 1], false);
      StepKeepsDeliveries(s, acts[|acts| - 1], true);
    }
  }

  /**
    * Probes in flight together behave like the same probes one at a time, in the order they took the
    * lock: whenever the mutex is free the fields are those of the history, the three flags agree with
    * the threshold, and the decided transitions are the history's own.
    */
  lemma Linearizes(acts: seq<Action>)
    requires Run(acts).Some? && Run(acts).value.owner == None
    ensures var s := Run(acts).value;
            && s.fields == After(s.log)
            && s.fields.consec == Trailing(s.log)
            && s.fields.wasDown == s.fields.down == (s.fields.consec >= PING_THRESHOLD)
            && s.decided == Events(s.log)
  {
    RunKeepsInv(acts);
    AfterIs(Run(acts).value.log);
  }

  /** At every moment, lock held or not, the decided transitions alternate, starting with offline. */
  lemma DecidedAlternate(acts: seq<Action>)
    requires Run(acts).Some?
    ensures Alternates(Run(acts).value.decided)
  {
    RunKeepsInv(acts);
    var s := Run(acts).value;
    EventsAlternate(s.log);
  }

  lemma {:induction false} NoneOwed(probes: seq<Phase>, online: bool)
    requires forall p :: 0 <= p < |probes| ==> !probes[p].Announcing?
    ensures Owed(probes, online) == 0
  {
    if probes != [] {
      NoneOwed(probes[..|probes| - 1], online);
    }
  }

  /** Once every probe has returned, each decided transition has been delivered exactly once. */
  lemma AllDelivered(acts: seq<Action>, online: bool)
    requires Run(acts).Some?
    requires forall p :: 0 <= p < |Run(acts).value.probes| ==> Run(acts).value.probes[p].Returned?
    ensures Times(Run(acts).value.delivered, online) == Times(Run(acts).value.decided, online)
  {
    RunKeepsInv(acts);
    NoneOwed(Run(acts).value.probes, online);
  }

  /** No probe can be left waiting: as long as one has not returned, some step of a probe can be taken. */
  lemma NoDeadlock(acts: seq<Action>, p: nat)
    requires Run(acts).Some? && p < |Run(acts).value.probes| && !Run(acts).value.probes[p].Returned?
    ensures exists a: Action :: !a.Spawn? && Enabled(Run(acts).value, a)
  {
    RunKeepsInv(acts);
    var s := Run(acts).value;
    var q := if s.owner.Some? then s.owner.value else p;
    match s.probes[q]
    case Dialing => assert Enabled(s, Lock(q, true));
    case Locked(_) => assert Enabled(s, CountIt(q));
    case Counted(_) => assert Enabled(s, DecideIt(q));
    case Announcing(_) => assert Enabled(s, Deliver(q));
    case Announced => assert Enabled(s, Relock(q));
    case Relocked => assert Enabled(s, Unlock(q));
    case Returned =>
  }

  lemma RunSnoc(acts: seq<Action>, a: Action, s: System)
    requires Run(acts) == Some(s) && Enabled(s, a)
    ensures Run(acts + [a]) == Some(Apply(s, a))
  {
    assert (acts + [a])[..|acts|] == acts;
  }

  /** A probe that takes the free lock and runs undisturbed does what `Prober.Record` does. */
  lemma Pass(acts: seq<Action>, s: System, p: nat, failed: bool) returns (acts1: seq<Action>, t: System)
    requires Run(acts) == Some(s) && s.owner == None && p < |s.probes| && s.probes[p].Dialing?
    ensures acts <= acts1 && Run(acts1) == Some(t)
    ensures var (f, fire) := Decide(Count(s.fields, failed));
            t == System(None, f, s.probes[p := if fire.Some? then Announcing(fire.value) else Returned],
                        s.log + [failed], s.decided + if fire.Some? then [fire.value] else [], s.delivered)
  {
    hide Count, Decide;
    RunSnoc(acts, Lock(p, failed), s);
    var s1 := Apply(s, Lock(p, failed));
    RunSnoc(acts + [Lock(p, failed)], CountIt(p), s1);
    var s2 := Apply(s1, CountIt(p));
    RunSnoc(acts + [Lock(p, failed)] + [CountIt(p)], DecideIt(p), s2);
    acts1 := acts + [Lock(p, failed)] + [CountIt(p)] + [DecideIt(p)];
    t := Apply(s2, DecideIt(p));
    assert t.probes == s.probes[p := t.probes[p]];
  }

  // --------------------------------------------------------- delivery order

  /** The callbacks delivered so far are the first of those decided, in that order. */
  ghost predicate InOrder(s: System) {
    s.delivered <= s.decided
  }

  /** How many probes stand between their decision and their callback. */
  function Undelivered(s: System): nat {
    Owed(s.probes, false) + Owed(s.probes, true)
  }

  lemma {:induction false} TimesBoth(events: seq<bool>)
    ensures Times(events, false) + Times(events, true) == |events|
  {
    if events != [] {
      TimesBoth(events[..|events| - 1]);
    }
  }

  lemma {:induction false} TimesJoin(a: seq<bool>, b: seq<bool>, online: bool)
    ensures Times(a + b, online) == Times(a, online) + Times(b, online)
  {
    if b == [] {
      assert a + b == a;
    } else {
      var n := |b| - 1;
      TimesJoin(a, b[..n], online);
      assert (a + b)[..|a + b| - 1] == a + b[..n];
    }
  }

  /** While deliveries are in order, what is left of the decisions is what the probes still owe. */
  lemma RestIsOwed(s: System)
    requires Inv(s) && InOrder(s)
    ensures var rest := s.decided[|s.delivered|..];
            && |rest| == Undelivered(s)
            && Times(rest, false) == Owed(s.probes, false) && Times(rest, true) == Owed(s.probes, true)
  {
    var rest := s.decided[|s.delivered|..];
    assert s.decided == s.delivered + rest;
    TimesJoin(s.delivered, rest, false);
    TimesJoin(s.delivered, rest, true);
    TimesBoth(rest);
  }

  lemma {:induction false} SomeOwed(probes: seq<Phase>, p: nat)
    requires p < |probes| && probes[p].Announcing?
    ensures Owed(probes, probes[p].online) > 0
  {
    if p < |probes| - 1 {
      SomeOwed(probes[..|probes| - 1], p);
    }
  }

  lemma {:induction false} WhoOwes(probes: seq<Phase>, online: bool) returns (p: nat)
    requires Owed(probes, online) > 0
    ensures p < |probes| && probes[p] == Announcing(online)
  {
    if probes[|probes| - 1] == Announcing(online) {
      p := |probes| - 1;
    } else {
      p := WhoOwes(probes[..|probes| - 1], online);
    }
  }

  /** With one callback to come, delivering it keeps the order. */
  lemma OnlyDeliveryInOrder(s: System, p: nat)
    requires Inv(s) && InOrder(s) && Undelivered(s) <= 1 && Enabled(s, Deliver(p))
    ensures InOrder(Apply(s, Deliver(p)))
  {
    RestIsOwed(s);
    SomeOwed(s.probes, p);
    var rest := s.decided[|s.delivered|..];
    assert rest == [s.probes[p].online] by {
      assert rest[..0] == [];
    }
    assert s.decided == s.delivered + rest;
  }

  /** With two to come, one of them delivered first breaks it: the next two decisions differ. */
  lemma WrongDelivery(s: System) returns (p: nat)
    requires Inv(s) && Alternates(s.decided) && InOrder(s) && Undelivered(s) > 1
    ensures Enabled(s, Deliver(p)) && !InOrder(Apply(s, Deliver(p)))
  {
    hide Inv, Owed, Times, Apply;
    RestIsOwed(s);
    var n := |s.delivered|;
    var rest := s.decided[n..];
    assert rest[0] == s.decided[n] && rest[1] == s.decided[n + 1] && rest[0] != rest[1];
    HasIt(rest, 1);
    p := WhoOwes(s.probes, rest[1]);
    Delivers(s, p);
    assert (s.delivered + [rest[1]])[n] == rest[1];
  }

  lemma Delivers(s: System, p: nat)
    requires Enabled(s, Deliver(p))
    ensures var q := Apply(s, Deliver(p));
            q.decided == s.decided && q.delivered == s.delivered + [s.probes[p].online]
  {
  }

  lemma {:induction false} HasIt(events: seq<bool>, i: nat)
    requires i < |events|
    ensures Times(events, events[i]) > 0
  {
    if i < |events| - 1 {
      HasIt(events[..|events| - 1], i);
    }
  }

  /** Any step but a delivery keeps the order. */
  lemma OtherStepInOrder(s: System, a: Action)
    requires InOrder(s) && Enabled(s, a) && !a.Deliver?
    ensures InOrder(Apply(s, a))
  {
    hide Count, Decide;
  }

  /** The state after `n` steps of a schedule that can be run. */
  function At(acts: seq<Action>, n: nat): System
    requires n <= |acts| && Run(acts).Some?
    decreases |acts| - n
  {
    RunsBefore(acts, n);
    Run(acts[..n]).value
  }

  lemma {:induction false} RunsBefore(acts: seq<Action>, n: nat)
    requires n <= |acts| && Run(acts).Some?
    ensures Run(acts[..n]).Some?
    decreases |acts|
  {
    if n == |acts| {
      assert acts[..n] == acts;
    } else {
      RunsBefore(acts[..|acts| - 1], n);
      assert acts[..|acts| - 1][..n] == acts[..n];
    }
  }

  lemma StepAt(acts: seq<Action>, n: nat)
    requires n < |acts| && Run(acts).Some?
    ensures Enabled(At(acts, n), acts[n]) && At(acts, n + 1) == Apply(At(acts, n), acts[n])
  {
    hide Enabled, Apply, Run;
    RunsBefore(acts, n + 1);
    RunLast(acts[..n + 1]);
    assert acts[..n + 1][..n] == acts[..n];
  }

  lemma RunLast(acts: seq<Action>)
    requires acts != [] && Run(acts).Some?
    ensures var s := Run(acts[..|acts| - 1]);
            && s.Some? && Enabled(s.value, acts[|acts| - 1]) && Run(acts) == Some(Apply(s.value, acts[|acts| - 1]))
  {
    hide Enabled, Apply;
  }

  lemma AtInv(acts: seq<Action>, n: nat)
    requires n <= |acts| && Run(acts).Some?
    ensures Inv(At(acts, n)) && Alternates(At(acts, n).decided)
  {
    RunsBefore(acts, n);
    RunKeepsInv(acts[..n]);
    DecidedAlternate(acts[..n]);
  }

  /** A run in which at most one callback is outstanding at any moment is in order throughout. */
  lemma {:induction false} InOrderIfOne(acts: seq<Action>, n: nat)
    requires n <= |acts| && Run(acts).Some?
    requires forall m :: 0 <= m <= n ==> Undelivered(At(acts, m)) <= 1
    ensures InOrder(At(acts, n)) && |At(acts, n).decided| - |At(acts, n).delivered| <= 1
  {
    hide Run, Enabled, Apply, At, Inv, InOrder;
    if n == 0 {
      StartsInOrder(acts);
    } else {
      InOrderIfOne(acts, n - 1);
      StepAt(acts, n - 1);
      AtInv(acts, n - 1);
      if acts[n - 1].Deliver? {
        OnlyDeliveryInOrder(At(acts, n - 1), acts[n - 1].probe);
      } else {
        OtherStepInOrder(At(acts, n - 1), acts[n - 1]);
      }
    }
    AtInv(acts, n);
    RestIsOwed(At(acts, n));
    OrderedLength(At(acts, n));
  }

  lemma OrderedLength(s: System)
    requires InOrder(s)
    ensures |s.delivered| <= |s.decided| && |s.decided[|s.delivered|..]| == |s.decided| - |s.delivered|
  {
  }

  lemma StartsInOrder(acts: seq<Action>)
    requires Run(acts).Some?
    ensures At(acts, 0) == IDLE && InOrder(IDLE)
  {
    assert acts[..0] == [];
  }

  /** Whatever callback the scheduler lets through next, at any moment of the run, the order is kept. */
  ghost predicate OrderGuaranteed(acts: seq<Action>)
    requires Run(acts).Some?
  {
    && (forall n :: 0 <= n <= |acts| ==> InOrder(At(acts, n)))
    && (forall n, p: nat :: 0 <= n <= |acts| && Enabled(At(acts, n), Deliver(p)) ==>
          InOrder(Apply(At(acts, n), Deliver(p))))
  }

  /**
    * The order of delivery is guaranteed throughout a run if and only if at no moment two probes stand
    * between their decision and their callback.
    */
  lemma DeliveryOrderIff(acts: seq<Action>)
    requires Run(acts).Some?
    ensures OrderGuaranteed(acts) <==> forall n :: 0 <= n <= |acts| ==> Undelivered(At(acts, n)) <= 1
  {
    hide Run, Enabled, Apply, At, Inv, InOrder, Undelivered;
    if forall n :: 0 <= n <= |acts| ==> Undelivered(At(acts, n)) <= 1 {
      forall n | 0 <= n <= |acts| ensures InOrder(At(acts, n)) {
        InOrderIfOne(acts, n);
      }
      forall n, p: nat | 0 <= n <= |acts| && Enabled(At(acts, n), Deliver(p))
        ensures InOrder(Apply(At(acts, n), Deliver(p)))
      {
        AtInv(acts, n);
        OnlyDeliveryInOrder(At(acts, n), p);
      }
    } else {
      var n :| 0 <= n <= |acts| && Undelivered(At(acts, n)) > 1;
      if InOrder(At(acts, n)) {
        AtInv(acts, n);
        var p := WrongDelivery(At(acts, n));
      }
    }
  }

  /**
    * Delivery, unlike decision, need not alternate: the lock is given up before the callback, so the
    * probe that decided "offline" can be overtaken by the later one that decides "online".
    */
  lemma DeliveryCanReorder() returns (acts: seq<Action>)
    ensures Run(acts).Some?
    ensures Run(acts).value.decided == [false, true]
    ensures Run(acts).value.delivered == [true, false]
  {
    acts := [];
    var s := IDLE;
    while |s.probes| < 3
      invariant Run(acts) == Some(s) && |s.probes| <= 3
      invariant s == IDLE.(probes := seq(|s.probes|, _ => Dialing))
    {
      RunSnoc(acts, Spawn, s);
      acts, s := acts + [Spawn], Apply(s, Spawn);
    }
    acts, s := Pass(acts, s, 0, true);
    acts, s := Pass(acts, s, 1, true);
    acts, s := Pass(acts, s, 2, false);
    RunSnoc(acts, Deliver(2), s);
    acts, s := acts + [Deliver(2)], Apply(s, Deliver(2));
    RunSnoc(acts, Deliver(1), s);
    acts := acts + [Deliver(1)];
  }
}
