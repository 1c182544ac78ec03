/** What becomes of collecting marks, in every interleaving. */
module PoolMarks {
  import opened Pool
  import opened PoolRuns
  import opened Wrappers

  // --------------------------------------------------- marks and their lookups

  /** Where each lookup of switch `id` finds it pooled, no mark of `id` is ever left behind. */
  lemma {:induction false} NeverStuck(p: Pool, acts: seq<Action>, id: string)
    requires Run(p, acts).Some? && id !in p.stuck
    requires forall i :: 0 <= i < |acts| && Run(p, acts[..i]).Some? ==>
               var q := Run(p, acts[..i]).value;
               acts[i].Advance? && acts[i].k < |q.calls| && q.calls[acts[i].k] == Looking(id) ==> id in q.workers
    ensures id !in Run(p, acts).value.stuck
  {
    if acts != [] {
      hide StepCall, StepLoop;
      var before, a := acts[..|acts| - 1], acts[|acts| - 1];
      assert forall i :: 0 <= i < |before| ==> before[..i] == acts[..i];
      NeverStuck(p, before, id);
      var q := Run(p, before).value;
      match a
      case Advance(k, o) => CallMarks(q, k, o, id);
      case Turn(w, o) => LoopKeepsMarks(q, w, o);
      case _ =>
    }
  }

  /** Step `i` of the schedule advances a call on switch `id` that stands at `c`. */
  predicate AdvancesAt(acts: seq<Action>, i: nat, c: Call) {
    && i < |acts| && Run(EMPTY, acts[..i]).Some?
    && acts[i].Advance? && acts[i].k < |Run(EMPTY, acts[..i]).value.calls|
    && Run(EMPTY, acts[..i]).value.calls[acts[i].k] == c
  }

  /** Step `i` looks the switch up while it is marked and not pooled. */
  predicate MissesAt(acts: seq<Action>, i: nat, id: string) {
    && AdvancesAt(acts, i, Looking(id))
    && id !in Run(EMPTY, acts[..i]).value.workers && id in Run(EMPTY, acts[..i]).value.marks
  }

  /** A lookup has missed, and no collection of the switch has ended since. */
  ghost predicate LeftBehind(acts: seq<Action>, id: string) {
    exists i: nat :: MissesAt(acts, i, id) && NoEndSince(acts, i, id)
  }

  lemma SameBefore(acts: seq<Action>, i: nat, id: string)
    requires acts != [] && i < |acts| - 1
    ensures MissesAt(acts, i, id) <==> MissesAt(acts[..|acts| - 1], i, id)
    ensures AdvancesAt(acts, i, Ending(id)) <==> AdvancesAt(acts[..|acts| - 1], i, Ending(id))
  {
    assert acts[..|acts| - 1][..i] == acts[..i];
    hide Run;
  }

  /** No end of a collection of the switch between step `i` and the end of the schedule. */
  ghost predicate NoEndSince(acts: seq<Action>, i: nat, id: string) {
    forall j: nat :: i < j < |acts| ==> !AdvancesAt(acts, j, Ending(id))
  }

  lemma NoEndStep(acts: seq<Action>, i: nat, id: string)
    requires acts != [] && i < |acts| - 1
    ensures NoEndSince(acts, i, id) <==>
            NoEndSince(acts[..|acts| - 1], i, id) && !AdvancesAt(acts, |acts| - 1, Ending(id))
  {
    hide AdvancesAt;
    var n := |acts| - 1;
    if NoEndSince(acts[..n], i, id) && !AdvancesAt(acts, n, Ending(id)) {
      forall j: nat | i < j < |acts| ensures !AdvancesAt(acts, j, Ending(id)) {
        if j < n {
          SameBefore(acts, j, id);
        }
      }
    }
    if NoEndSince(acts, i, id) {
      forall j: nat | i < j < n ensures !AdvancesAt(acts[..n], j, Ending(id)) {
        SameBefore(acts, j, id);
      }
    }
  }

  lemma LeftBehindStep(acts: seq<Action>, id: string)
    requires acts != []
    ensures LeftBehind(acts, id) <==>
            MissesAt(acts, |acts| - 1, id)
            || (LeftBehind(acts[..|acts| - 1], id) && !AdvancesAt(acts, |acts| - 1, Ending(id)))
  {
    var n := |acts| - 1;
    hide MissesAt, AdvancesAt, NoEndSince;
    if MissesAt(acts, n, id) {
      assert NoEndSince(acts, n, id) by {
        NoEndAtLast(acts, id);
      }
    } else if LeftBehind(acts[..n], id) {
      var i: nat :| MissesAt(acts[..n], i, id) && NoEndSince(acts[..n], i, id);
      InRange(acts[..n], i, id);
      SameBefore(acts, i, id);
      NoEndStep(acts, i, id);
      if AdvancesAt(acts, n, Ending(id)) {
        forall k: nat | MissesAt(acts, k, id) ensures !NoEndSince(acts, k, id) {
          InRange(acts, k, id);
          NoEndStep(acts, k, id);
        }
      }
    } else {
      forall k: nat | MissesAt(acts, k, id) ensures !NoEndSince(acts, k, id) {
        InRange(acts, k, id);
        SameBefore(acts, k, id);
        NoEndStep(acts, k, id);
      }
    }
  }

  lemma NoEndAtLast(acts: seq<Action>, id: string)
    requires acts != []
    ensures NoEndSince(acts, |acts| - 1, id)
  {
  }

  lemma InRange(acts: seq<Action>, i: nat, id: string)
    ensures MissesAt(acts, i, id) ==> i < |acts|
  {
  }

  lemma {:induction false} StuckIff(acts: seq<Action>, id: string)
    requires Run(EMPTY, acts).Some?
    ensures id in Run(EMPTY, acts).value.stuck <==> LeftBehind(acts, id)
  {
    if acts == [] {
      assert forall i: nat :: !MissesAt(acts, i, id);
    } else {
      var n := |acts| - 1;
      StuckIff(acts[..n], id);
      LeftBehindStep(acts, id);
      hide LeftBehind, StepCall, StepLoop;
      var q := Run(EMPTY, acts[..n]).value;
      match acts[n]
      case Advance(k, o) => CallMarks(q, k, o, id);
      case Turn(w, o) => LoopKeepsMarks(q, w, o);
      case _ =>
    }
  }

  /**
    * The exact state of a mark once no collection of the switch is pending or running: it is still there,
    * and `Status` still says collecting, if and only if a lookup found the marked switch not pooled and no
    * collection of it has ended since.
    */
  lemma MarkLeftIff(acts: seq<Action>, id: string)
    requires Run(EMPTY, acts).Some?
    requires forall c :: c in Run(EMPTY, acts).value.calls ==> !c.Live(id)
    ensures var p := Run(EMPTY, acts).value;
            && (id in p.marks <==> LeftBehind(acts, id))
            && (StatusOf(p, id) == StatusCollecting <==> LeftBehind(acts, id))
  {
    ReachedInv(acts);
    StuckIff(acts, id);
    hide LeftBehind;
    assert MarkInv(Run(EMPTY, acts).value, id);
  }

  /** So marks never outlive collections as long as the switch is pooled whenever it is looked up. */
  lemma MarksClear(acts: seq<Action>, id: string)
    requires Run(EMPTY, acts).Some?
    requires forall i :: 0 <= i < |acts| && Run(EMPTY, acts[..i]).Some? ==>
               var q := Run(EMPTY, acts[..i]).value;
               acts[i].Advance? && acts[i].k < |q.calls| && q.calls[acts[i].k] == Looking(id) ==> id in q.workers
    requires forall c :: c in Run(EMPTY, acts).value.calls ==> !c.Live(id)
    ensures id !in Run(EMPTY, acts).value.marks && StatusOf(Run(EMPTY, acts).value, id) != StatusCollecting
  {
    NeverStuck(EMPTY, acts, id);
    StuckIff(acts, id);
    MarkLeftIff(acts, id);
  }

  /** The switch is not pooled, and no call is under way that could pool it, mark it or clear its mark. */
  ghost predicate Unattended(p: Pool, id: string) {
    && id !in p.workers
    && forall k :: 0 <= k < |p.calls| ==> Harmless(p.calls[k], id)
  }

  /** The call will neither pool switch `id` nor set or clear its mark, as long as it is not pooled. */
  predicate Harmless(c: Call, id: string) {
    match c
    case Removing(i, next) => next.Some? ==> next.value.id == i
    case Stopping(_, next) => next.Some? ==> next.value.id != id
    case Waiting(_, next) => next.Some? ==> next.value.id != id
    case Adding(cfg, _) => cfg.id != id
    case Marking(i) => i != id
    case Starting(i, _) => i != id
    case Collecting(i, _) => i != id
    case Storing(i, _, _) => i != id
    case Ending(i) => i != id
    case _ => true
  }

  ghost predicate Doomed(p: Pool, id: string) {
    id in p.marks && Unattended(p, id)
  }

  lemma CallKeepsDoomed(p: Pool, k: nat, o: Outcome, id: string)
    requires Doomed(p, id) && k < |p.calls| && CallEnabled(p, p.calls[k], o)
    ensures Doomed(StepCall(p, k, o), id)
  {
    assert Harmless(p.calls[k], id);
    StaysHarmless(p, k, o, id);
    hide StepCall, Harmless, CallEnabled;
    CallMarks(p, k, o, id);
    CallFrame(p, k, o);
    NotEnding(p.calls[k], id);
  }

  lemma NotEnding(c: Call, id: string)
    requires Harmless(c, id)
    ensures c != Ending(id) && c != Marking(id)
  {
  }

  lemma StaysHarmless(p: Pool, k: nat, o: Outcome, id: string)
    requires k < |p.calls| && CallEnabled(p, p.calls[k], o) && Harmless(p.calls[k], id)
    requires id in p.marks && id !in p.workers
    ensures var q := StepCall(p, k, o); k < |q.calls| && Harmless(q.calls[k], id) && id !in q.workers
  {
    var c := p.calls[k];
    hide ChangeLast;
    if c.Removing? || c.Stopping? || c.Waiting? || c.Adding? {
    } else {
      QuietShape(p, k, o);
      hide StepAdd, StepRemove, StepClose, StepStopped, SetLast;
      if c.StoringPorts? {
        ChangeLastQuiet(SetCall(p, k, Returned(true)), c.worker, v => PutPorts(v, c.ports));
      }
    }
  }

  /**
    * A stuck mark stays for ever: unless the switch is added again under the same id, every later state
    * reports it as collecting, whatever else is called, and every trigger returns without collecting.
    */
  lemma {:induction false} StuckForever(p: Pool, acts: seq<Action>, id: string)
    requires Doomed(p, id) && Run(p, acts).Some?
    requires forall a :: a in acts && a.Invoke? && a.call.Adding? ==> a.call.cfg.id != id
    ensures Doomed(Run(p, acts).value, id) && StatusOf(Run(p, acts).value, id) == StatusCollecting
  {
    if acts != [] {
      hide Doomed, StepCall, StepLoop;
      var before, a := acts[..|acts| - 1], acts[|acts| - 1];
      StuckForever(p, before, id);
      var q := Run(p, before).value;
      match a
      case Invoke(c) => InvokeKeepsDoomed(q, c, id);
      case Advance(k, o) => CallKeepsDoomed(q, k, o, id);
      case Turn(w, o) =>
        LoopKeepsMarks(q, w, o);
        SameDoom(q, StepLoop(q, w, o), id);
      case Probe(w, down) => SameDoom(q, Apply(q, a), id);
      DoomedStatus(Run(p, acts).value, id);
    } else {
      DoomedStatus(p, id);
    }
  }

  lemma SameDoom(p: Pool, q: Pool, id: string)
    requires Doomed(p, id) && q.marks == p.marks && q.workers == p.workers && q.calls == p.calls
    ensures Doomed(q, id)
  {
  }

  lemma InvokeKeepsDoomed(p: Pool, c: Call, id: string)
    requires Doomed(p, id) && c.IsEntry() && (c.Adding? ==> c.cfg.id != id)
    ensures Doomed(p.(calls := p.calls + [c]), id)
  {
  }

  lemma DoomedStatus(p: Pool, id: string)
    requires Doomed(p, id)
    ensures StatusOf(p, id) == StatusCollecting
  {
  }

  /**
    * Such a state is four steps from every one in which the switch is unattended and not marked: it takes
    * a trigger for a switch that is stored but has no worker.
    */
  lemma TriggerUnpooledSticks(p: Pool, id: string) returns (acts: seq<Action>)
    requires Unattended(p, id) && id !in p.marks
    ensures |acts| == 4 && acts[0] == Invoke(Triggering(id))
    ensures Run(p, acts).Some? && Doomed(Run(p, acts).value, id) && id in Run(p, acts).value.stuck
    ensures Run(p, acts).value.calls == p.calls + [Returned(false)] && Run(p, acts).value.workers == p.workers
  {
    var k, step := |p.calls|, Advance(|p.calls|, Done);
    var q0 := p.(calls := p.calls + [Triggering(id)]);
    var q1 := p.(calls := p.calls + [Marking(id)]);
    var q2 := p.(calls := p.calls + [Looking(id)], marks := p.marks + {id});
    var q3 := p.(calls := p.calls + [Returned(false)], marks := p.marks + {id}, stuck := p.stuck + {id});
    assert Enabled(p, Invoke(Triggering(id))) && Apply(p, Invoke(Triggering(id))) == q0;
    OneCall(p, q0, Marking(id));
    assert Enabled(q0, step) && Apply(q0, step) == q1;
    OneCall(p, q1, Looking(id));
    assert Enabled(q1, step) && Apply(q1, step) == q2;
    OneCall(p, q2, Returned(false));
    assert Enabled(q2, step) && Apply(q2, step) == q3;
    hide Enabled, Apply;
    RunSnoc(p, [], p, Invoke(Triggering(id)));
    RunSnoc(p, [] + [Invoke(Triggering(id))], q0, step);
    RunSnoc(p, [] + [Invoke(Triggering(id))] + [step], q1, step);
    RunSnoc(p, [] + [Invoke(Triggering(id))] + [step] + [step], q2, step);
    acts := [] + [Invoke(Triggering(id))] + [step] + [step] + [step];
  }

  lemma OneCall(p: Pool, q: Pool, c: Call)
    requires |q.calls| == |p.calls| + 1 && q.calls[..|p.calls|] == p.calls
    ensures q.calls[|p.calls| := c] == p.calls + [c]
  {
  }
}
