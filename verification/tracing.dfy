/** Every event handed on in a run, traced to the step that dispatched it and to the rules set before. */
module Tracing {
  import opened Events
  import opened Memory
  import opened Rules
  import opened Dispatcher
  import opened Routing
  import opened Parser
  import opened ParsedEvents
  import opened Pipeline
  import opened Runs

  // ---------------------------------------------------------------- the rules in force

  /** A step that sets the rule of this variable. */
  predicate Sets(step: Step, t: nat, v: nat) {
    step.SetRule? && step.twin == t && step.varId == v
  }

  /** The rule of a variable of the table after the steps: the last one set, or else the initial one. */
  ghost predicate InForce(initial: Table, steps: seq<Step>, t: nat, v: nat, rule: Action)
    requires Rules.Shaped(initial) && t < MAX_TWINS && v < MAX_VARS_PER_TWINS
  {
    || (rule == initial[t][v] && forall j :: 0 <= j < |steps| ==> !Sets(steps[j], t, v))
    || exists k :: 0 <= k < |steps| && Sets(steps[k], t, v) && steps[k].rule == rule
                   && forall j :: k < j < |steps| ==> !Sets(steps[j], t, v)
  }

  /** The table holds for every variable the rule in force. */
  ghost predicate TableInForce(table: Table, initial: Table, steps: seq<Step>)
    requires Rules.Shaped(initial)
  {
    && Rules.Shaped(table)
    && forall t, v :: 0 <= t < MAX_TWINS && 0 <= v < MAX_VARS_PER_TWINS ==> InForce(initial, steps, t, v, table[t][v])
  }

  /** Setting a rule changes the rule of that variable, if it is in the table, and no other step changes any. */
  lemma StepRules(s: State, step: Step, t: nat, v: nat)
    requires Shape(s) && Rules.Shaped(Next(s, step).table) && t < MAX_TWINS && v < MAX_VARS_PER_TWINS
    ensures Next(s, step).table[t][v] == if Sets(step, t, v) then step.rule else s.table[t][v]
  {
  }

  lemma InForceThen(initial: Table, steps: seq<Step>, step: Step, t: nat, v: nat, rule: Action)
    requires Rules.Shaped(initial) && t < MAX_TWINS && v < MAX_VARS_PER_TWINS
    requires InForce(initial, steps, t, v, rule)
    ensures InForce(initial, steps + [step], t, v, if Sets(step, t, v) then step.rule else rule)
  {
    var more := steps + [step];
    if Sets(step, t, v) {
      assert more[|steps|] == step;
    } else {
      assert forall j :: 0 <= j < |more| ==> more[j] == if j < |steps| then steps[j] else step;
      if k :| 0 <= k < |steps| && Sets(steps[k], t, v) && steps[k].rule == rule
              && forall j :: k < j < |steps| ==> !Sets(steps[j], t, v) {
        assert more[k] == steps[k];
      }
    }
  }

  /** After every run the table holds the rules in force. */
  lemma {:induction false} RulesAfterRun(s: State, steps: seq<Step>)
    requires Initial(s)
    ensures TableInForce(After(s, steps).table, s.table, steps)
    decreases |steps|
  {
    hide Next, InForce, Pipeline.Inv;
    InitialHolds(s);
    RunShape(s, steps);
    if steps == [] {
      NoneSet(s.table);
    } else {
      var front, step := steps[..|steps| - 1], steps[|steps| - 1];
      RulesAfterRun(s, front);
      RunShape(s, front);
      assert steps == front + [step];
      forall t, v | 0 <= t < MAX_TWINS && 0 <= v < MAX_VARS_PER_TWINS
        ensures InForce(s.table, steps, t, v, After(s, steps).table[t][v])
      {
        StepRules(After(s, front), step, t, v);
        InForceThen(s.table, front, step, t, v, After(s, front).table[t][v]);
      }
    }
  }

  lemma NoneSet(table: Table)
    requires Rules.Shaped(table)
    ensures TableInForce(table, table, [])
  {
  }

  lemma RunShape(s: State, steps: seq<Step>)
    requires Initial(s)
    ensures Shape(After(s, steps)) && Sound(After(s, steps).processed)
  {
    hide Run;
    InitialHolds(s);
  }

  // ---------------------------------------------------------------- the dispatching steps

  /** The step at `j` dispatches an event. */
  ghost predicate Dispatches(s: State, steps: seq<Step>, j: nat)
    requires Initial(s)
  {
    j < |steps| && steps[j] == Dispatch && After(s, steps[..j]).held != []
  }

  /** What the step at `j` dispatched, and the rules at that moment. */
  ghost predicate DispatchedAt(p: Processed, s: State, steps: seq<Step>, j: nat)
    requires Initial(s)
  {
    && Dispatches(s, steps, j) && After(s, steps[..j]).held == [p.event]
    && TableInForce(p.table, s.table, steps[..j])
  }

  /** `js` are the dispatching steps, in order, and the processed entries are theirs. */
  ghost predicate Traced(s: State, steps: seq<Step>, ps: seq<Processed>, js: seq<nat>)
    requires Initial(s)
  {
    && |js| == |ps|
    && (forall i :: 0 <= i < |js| ==> DispatchedAt(ps[i], s, steps, js[i]))
    && (forall i, k :: 0 <= i < k < |js| ==> js[i] < js[k])
    && (forall j: nat :: Dispatches(s, steps, j) ==> j in js)
  }

  lemma StepProcessed(s: State, step: Step)
    requires Shape(s)
    ensures Next(s, step).processed == s.processed
              + (if step == Dispatch && s.held != [] then [Processed(s.held[0], s.table)] else [])
  {
    hide Parse, Stored, BatchOf;
  }

  lemma SameTrace(s: State, front: seq<Step>, step: Step, j: nat)
    requires Initial(s) && j < |front|
    ensures Dispatches(s, front + [step], j) <==> Dispatches(s, front, j)
    ensures forall p :: DispatchedAt(p, s, front + [step], j) <==> DispatchedAt(p, s, front, j)
  {
    hide After, TableInForce;
    assert (front + [step])[..j] == front[..j];
  }

  /** In every run the processed entries are exactly the events the dispatching steps found, each with the
      rules in force when it was dispatched. */
  lemma {:induction false} ProcessedTraced(s: State, steps: seq<Step>) returns (js: seq<nat>)
    requires Initial(s)
    ensures Traced(s, steps, After(s, steps).processed, js)
    decreases |steps|
  {
    hide Next, TableInForce, Pipeline.Inv, DispatchedAt, Dispatches;
    InitialHolds(s);
    if steps == [] {
      js := [];
      NothingTraced(s);
    } else {
      var front, step := steps[..|steps| - 1], steps[|steps| - 1];
      assert steps == front + [step];
      js := ProcessedTraced(s, front);
      js := LastTraced(s, front, step, js);
    }
  }

  lemma NothingTraced(s: State)
    requires Initial(s)
    ensures Traced(s, [], After(s, []).processed, [])
  {
  }

  /** What a further step adds to the trace. */
  lemma LastTraced(s: State, front: seq<Step>, step: Step, js: seq<nat>) returns (more: seq<nat>)
    requires Initial(s) && Traced(s, front, After(s, front).processed, js)
    ensures Traced(s, front + [step], After(s, front + [step]).processed, more)
  {
    hide Next, After, Initial, TableInForce, Dispatches, DispatchedAt, Traced;
    var before := After(s, front);
    AfterStep(s, front, step);
    StepProcessed(before, step);
    TraceKeeps(s, front, step, before.processed, js);
    LastDispatches(s, front, step);
    more := js;
    if Dispatches(s, front + [step], |front|) {
      more := js + [|front|];
      TraceGrows(s, front, step, before.processed, Processed(before.held[0], before.table), js);
    } else {
      assert before.processed + [] == before.processed;
    }
  }

  lemma LastDispatches(s: State, front: seq<Step>, step: Step)
    requires Initial(s)
    ensures Shape(After(s, front))
    ensures var before := After(s, front);
            && (Dispatches(s, front + [step], |front|) <==> step == Dispatch && before.held != [])
            && (Dispatches(s, front + [step], |front|) ==>
                 DispatchedAt(Processed(before.held[0], before.table), s, front + [step], |front|))
  {
    hide After, TableInForce;
    RunShape(s, front);
    RulesAfterRun(s, front);
    assert (front + [step])[..|front|] == front;
    var before := After(s, front);
    assert before.held != [] ==> before.held == [before.held[0]];
  }

  /** Unless it dispatches, a further step leaves the trace as it is. */
  lemma TraceKeeps(s: State, front: seq<Step>, step: Step, ps: seq<Processed>, js: seq<nat>)
    requires Initial(s) && Traced(s, front, ps, js)
    ensures !Dispatches(s, front + [step], |front|) ==> Traced(s, front + [step], ps, js)
    ensures forall i :: 0 <= i < |js| ==> js[i] < |front| && i < |ps| && DispatchedAt(ps[i], s, front + [step], js[i])
    ensures forall j: nat :: j < |front| && Dispatches(s, front + [step], j) ==> j in js
  {
    hide After, Initial, TableInForce;
    forall j: nat | j < |front|
      ensures Dispatches(s, front + [step], j) <==> Dispatches(s, front, j)
      ensures forall p :: DispatchedAt(p, s, front + [step], j) <==> DispatchedAt(p, s, front, j)
    {
      SameTrace(s, front, step, j);
    }
  }

  lemma DispatchesInside(s: State, steps: seq<Step>, j: nat)
    requires Initial(s) && Dispatches(s, steps, j)
    ensures j < |steps|
  {
  }

  lemma TraceGrows(s: State, front: seq<Step>, step: Step, ps: seq<Processed>, p: Processed, js: seq<nat>)
    requires Initial(s) && Traced(s, front, ps, js) && DispatchedAt(p, s, front + [step], |front|)
    ensures Traced(s, front + [step], ps + [p], js + [|front|])
  {
    hide After, Initial, TableInForce, Dispatches, DispatchedAt;
    TraceKeeps(s, front, step, ps, js);
    var more, js' := ps + [p], js + [|front|];
    assert |js'| == |more|;
    assert forall i :: 0 <= i < |js'| ==> DispatchedAt(more[i], s, front + [step], js'[i]);
    forall j: nat | Dispatches(s, front + [step], j)
      ensures j in js + [|front|]
    {
      assert j <= |front| by {
        DispatchesInside(s, front + [step], j);
      }
      assert j < |front| ==> j in js;
    }
  }

  lemma AfterStep(s: State, front: seq<Step>, step: Step)
    requires Initial(s)
    ensures Shape(After(s, front)) && After(s, front + [step]) == Next(After(s, front), step)
  {
    hide Next;
    InitialHolds(s);
    assert (front + [step])[..|front + [step]| - 1] == front;
  }

  // ---------------------------------------------------------------- the events handed on

  /** `b` is the selection of `p`'s updates the table names the action for. */
  ghost predicate Leaves(p: Processed, action: Action, b: Event) {
    && Rules.Shaped(p.table) && p.event.header.kind == EVENT_UPDATE && p.event.payload.Updates?
    && exists ps :: Selection(b, p.event, p.table, action, ps)
  }

  /** `p` has nothing for the action. */
  ghost predicate LeavesNone(p: Processed, action: Action) {
    && Rules.Shaped(p.table)
    && (p.event.header.kind == EVENT_UPDATE ==>
         p.event.payload.Updates? && !SomeRuled(p.event, p.table, action))
  }

  /** `es` are the selections of the entries at `ks`, in order, and the other entries have nothing. */
  ghost predicate SelectedFrom(es: seq<Event>, ps: seq<Processed>, action: Action, ks: seq<nat>) {
    && |ks| == |es|
    && (forall i :: 0 <= i < |ks| ==> ks[i] < |ps| && Leaves(ps[ks[i]], action, es[i]))
    && (forall i, j :: 0 <= i < j < |ks| ==> ks[i] < ks[j])
    && (forall k :: 0 <= k < |ps| && k !in ks ==> LeavesNone(ps[k], action))
  }

  lemma BatchOfExactly(p: Processed, action: Action)
    requires Rules.Shaped(p.table) && Proper(p.event) && action != Ignore
    ensures BatchOf(p, action) == [] ==> LeavesNone(p, action)
    ensures BatchOf(p, action) != [] ==> |BatchOf(p, action)| == 1 && Leaves(p, action, BatchOf(p, action)[0])
  {
    hide Batch, Selection, SomeRuled, IsFloat;
    if p.event.header.kind == EVENT_UPDATE {
      var ps := BatchExactly(p.table, p.event, action);
    }
  }

  lemma SelectedThen(es: seq<Event>, ps: seq<Processed>, action: Action, ks: seq<nat>, p: Processed)
    requires SelectedFrom(es, ps, action, ks)
    ensures LeavesNone(p, action) ==> SelectedFrom(es, ps + [p], action, ks)
    ensures forall b :: Leaves(p, action, b) ==> SelectedFrom(es + [b], ps + [p], action, ks + [|ps|])
  {
    hide Leaves, LeavesNone;
  }

  lemma NothingSelected(action: Action)
    ensures SelectedFrom([], [], action, [])
  {
  }

  lemma {:induction false} BatchesSelected(ps: seq<Processed>, action: Action) returns (ks: seq<nat>)
    requires Sound(ps) && action != Ignore
    ensures SelectedFrom(BatchesOf(ps, action), ps, action, ks)
    decreases |ps|
  {
    hide BatchOf, Leaves, LeavesNone, Proper, SelectedFrom;
    if ps == [] {
      ks := [];
      NothingSelected(action);
    } else {
      var n := |ps| - 1;
      var front, p := ps[..n], ps[n];
      ks := BatchesSelected(front, action);
      assert p in ps && ps == front + [p];
      ProperConsistent(p.event);
      BatchOfExactly(p, action);
      SelectedThen(BatchesOf(front, action), front, action, ks, p);
      var b := BatchOf(p, action);
      if b != [] {
        ks := ks + [n];
        assert b == [b[0]];
      } else {
        assert BatchesOf(front, action) + b == BatchesOf(front, action);
      }
    }
  }

  /** What was handed to a queue, waiting to be pushed included. */
  function Handed(s: State, action: Action): seq<Event>
    requires action == NotifyUpwards || action == CallUserService
  {
    if action == NotifyUpwards then Offers(s.notify.offers) + s.notifying else Offers(s.action.offers) + s.acting
  }

  /** `b` is the selection of the event the step at `j` dispatched, by the rules in force then. */
  ghost predicate MadeFrom(b: Event, s: State, steps: seq<Step>, action: Action, j: nat)
    requires Initial(s)
  {
    exists p :: DispatchedAt(p, s, steps, j) && Leaves(p, action, b)
  }

  /** The event the step at `j` dispatched has nothing for the action, by the rules in force then. */
  ghost predicate MadeNothing(s: State, steps: seq<Step>, action: Action, j: nat)
    requires Initial(s)
  {
    exists p :: DispatchedAt(p, s, steps, j) && LeavesNone(p, action)
  }

  /** `es` are what the steps at `js` made of the events they dispatched, in order; the other dispatching
      steps found nothing for the action. */
  ghost predicate MadeAt(es: seq<Event>, s: State, steps: seq<Step>, action: Action, js: seq<nat>)
    requires Initial(s)
  {
    && |js| == |es|
    && (forall i :: 0 <= i < |js| ==> MadeFrom(es[i], s, steps, action, js[i]))
    && (forall i, k :: 0 <= i < k < |js| ==> js[i] < js[k])
    && (forall j: nat :: Dispatches(s, steps, j) && j !in js ==> MadeNothing(s, steps, action, j))
  }

  lemma MadeFromTrace(es: seq<Event>, s: State, steps: seq<Step>, action: Action,
                      ps: seq<Processed>, ks: seq<nat>, at: seq<nat>) returns (js: seq<nat>)
    requires Initial(s) && Traced(s, steps, ps, at) && SelectedFrom(es, ps, action, ks)
    ensures MadeAt(es, s, steps, action, js)
  {
    hide Initial, Dispatches, DispatchedAt, Leaves, LeavesNone;
    js := seq(|ks|, i requires 0 <= i < |ks| => at[ks[i]]);
    forall i | 0 <= i < |js|
      ensures MadeFrom(es[i], s, steps, action, js[i])
    {
      assert DispatchedAt(ps[ks[i]], s, steps, js[i]);
    }
    forall k | k in ks
      ensures at[k] in js
    {
      var i :| 0 <= i < |ks| && ks[i] == k;
      assert js[i] == at[k];
    }
    forall j: nat | Dispatches(s, steps, j) && j !in js
      ensures MadeNothing(s, steps, action, j)
    {
      var k :| 0 <= k < |at| && at[k] == j;
      assert DispatchedAt(ps[k], s, steps, j);
    }
  }

  /** In every run each event handed on for an action carries the header of one dispatched event and exactly
      those of its updates whose rule, as last set before that dispatch, is the action; every dispatched event
      with such an update is handed on, once, and in the order of the dispatches. */
  lemma HandedOnTraced(s: State, steps: seq<Step>, action: Action) returns (js: seq<nat>)
    requires Initial(s) && (action == NotifyUpwards || action == CallUserService)
    ensures MadeAt(Handed(After(s, steps), action), s, steps, action, js)
  {
    hide After, BatchesOf, Offers, Traced, SelectedFrom, MadeAt;
    var r := After(s, steps);
    Conservation(s, steps);
    var at := ProcessedTraced(s, steps);
    var ks := BatchesSelected(r.processed, action);
    js := MadeFromTrace(Handed(r, action), s, steps, action, r.processed, ks, at);
  }

  /** When no push met a full queue and everything has drained, these are the messages sent. */
  lemma SentTraced(s: State, steps: seq<Step>) returns (js: seq<nat>)
    requires Initial(s)
    requires var r := After(s, steps);
             && AllFit(r.main.offers) && AllFit(r.notify.offers)
             && r.parsed == [] && r.held == [] && r.notifying == [] && r.main.queue == [] && r.notify.queue == []
    ensures MadeAt(After(s, steps).notify.popped, s, steps, NotifyUpwards, js)
  {
    hide After, BatchesOf, Offers, Traced, SelectedFrom, MadeAt;
    Conservation(s, steps);
    LosslessWhenRoomy(s, steps);
    js := HandedOnTraced(s, steps, NotifyUpwards);
  }

  // ---------------------------------------------------------------- the statuses

  /** The event writes a variable of the twin. */
  ghost predicate WritesTwin(e: Event, t: nat) {
    e.header.kind == EVENT_UPDATE && e.header.twinId == t && e.payload.Updates? && Touches(e.payload.updates)
  }

  ghost predicate WritesAt(s: State, steps: seq<Step>, j: nat, t: nat)
    requires Initial(s)
  {
    Dispatches(s, steps, j) && WritesTwin(After(s, steps[..j]).held[0], t)
  }

  /** Some step wrote a variable of the twin and no later one deleted it. */
  ghost predicate Present(s: State, steps: seq<Step>, t: nat)
    requires Initial(s)
  {
    exists j :: 0 <= j < |steps| && WritesAt(s, steps, j, t) && forall k :: j < k < |steps| ==> steps[k] != Delete(t)
  }

  lemma StepStatus(s: State, step: Step, t: nat)
    requires Shape(s) && Shape(Next(s, step)) && t < MAX_TWINS
    ensures Next(s, step).memory[t].status ==
              if step == Delete(t) then STATUS_GONE
              else if step == Dispatch && s.held != [] && WritesTwin(s.held[0], t) then STATUS_OK
              else s.memory[t].status
  {
    hide Parse, BatchOf, ApplyUpdates, Touches;
    if step == Dispatch && s.held != [] {
      assert s.held[0] in s.held;
      var e := s.held[0];
      if e.header.kind == EVENT_UPDATE {
        if e.header.twinId < MAX_TWINS {
          LastWriterWins(s.memory, e.header.twinId, e.payload.updates);
        } else {
          UnknownTwin(s.memory, e.header.twinId, e.payload.updates);
        }
      }
    }
  }

  lemma PresentThen(s: State, front: seq<Step>, step: Step, t: nat)
    requires Initial(s)
    ensures Present(s, front + [step], t) <==>
              || (step == Dispatch && After(s, front).held != [] && WritesTwin(After(s, front).held[0], t))
              || (step != Delete(t) && Present(s, front, t))
  {
    hide After, Initial, WritesTwin;
    var steps, n := front + [step], |front|;
    assert steps[..n] == front && steps[n] == step;
    forall j: nat | j < n
      ensures WritesAt(s, steps, j, t) <==> WritesAt(s, front, j, t)
    {
      assert steps[..j] == front[..j];
    }
    if WritesAt(s, steps, n, t) {
      assert Present(s, steps, t);
    }
    if Present(s, front, t) && step != Delete(t) {
      var j :| 0 <= j < |front| && WritesAt(s, front, j, t) && forall k :: j < k < |front| ==> front[k] != Delete(t);
      assert WritesAt(s, steps, j, t);
    }
    if Present(s, steps, t) && !WritesAt(s, steps, n, t) {
      var j :| 0 <= j < |steps| && WritesAt(s, steps, j, t) && forall k :: j < k < |steps| ==> steps[k] != Delete(t);
      assert WritesAt(s, front, j, t);
      assert forall k :: j < k < |front| ==> front[k] == steps[k];
    }
  }

  /** After every run a twin is present exactly when some dispatched event wrote one of its variables and it
      was not deleted since. */
  lemma {:induction false} StatusAfterRun(s: State, steps: seq<Step>, t: nat)
    requires Initial(s) && t < MAX_TWINS
    ensures Memory.Shaped(After(s, steps).memory)
    ensures After(s, steps).memory[t].status == if Present(s, steps, t) then STATUS_OK else STATUS_GONE
    decreases |steps|
  {
    hide Next, Pipeline.Inv, Present, WritesTwin;
    InitialHolds(s);
    RunShape(s, steps);
    if steps == [] {
      NotYetPresent(s, t);
    } else {
      var front, step := steps[..|steps| - 1], steps[|steps| - 1];
      assert steps == front + [step];
      StatusAfterRun(s, front, t);
      AfterStep(s, front, step);
      StepStatus(After(s, front), step, t);
      PresentThen(s, front, step, t);
    }
  }

  lemma NotYetPresent(s: State, t: nat)
    requires Initial(s)
    ensures !Present(s, [], t)
  {
    hide After, Initial, WritesAt;
  }
}
