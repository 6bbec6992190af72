/** What holds after every run of the engine. */
module Runs {
  import opened Bytes
  import opened Events
  import opened Queue
  import opened Memory
  import opened Rules
  import opened Dispatcher
  import opened Routing
  import opened Parser
  import opened ParsedEvents
  import opened Sender
  import opened Pipeline

  ghost function After(s: State, steps: seq<Step>): State
    requires Initial(s)
  {
    InitialHolds(s);
    Run(s, steps)
  }

  /** Nothing appears, disappears or changes places between the stages except at a full queue: what the
      receiver parsed is what it offered and what it still holds; what a queue accepted is what was popped
      from it followed by what it holds; what was popped from the main queue is what was dispatched and
      what the processor holds; and what was offered for notification is, batch by batch, the
      notification batches of the dispatched events. */
  lemma Conservation(s: State, steps: seq<Step>)
    requires Initial(s)
    ensures var r := After(s, steps);
            && Sound(r.processed)
            && Offers(r.main.offers) + r.parsed == AllParsed(r.received)
            && Accepted(r.main.offers) == Taken(r.processed) + r.held + r.main.queue
            && Offers(r.notify.offers) + r.notifying == BatchesOf(r.processed, NotifyUpwards)
            && Accepted(r.notify.offers) == r.notify.popped + r.notify.queue
            && Offers(r.action.offers) + r.acting == BatchesOf(r.processed, CallUserService)
            && Accepted(r.action.offers) == r.action.popped + r.action.queue
  {
    hide Run, AllParsed, Accepted, Offers, Taken, BatchesOf;
    InitialHolds(s);
  }

  /** A push that found room. */
  ghost predicate AllFit(os: seq<Offered>) {
    forall o :: o in os ==> o.before < CAPACITY
  }

  lemma {:induction false} FitMeansAccepted(os: seq<Offered>)
    requires AllFit(os)
    ensures Accepted(os) == Offers(os)
    decreases |os|
  {
    if os != [] {
      FitMeansAccepted(os[..|os| - 1]);
      assert os[|os| - 1] in os;
    }
  }

  /** When no push met a full queue and everything has drained, the messages sent are exactly the
      notification batches of all parsed events, in order. */
  lemma LosslessWhenRoomy(s: State, steps: seq<Step>)
    requires Initial(s)
    requires var r := After(s, steps);
             && AllFit(r.main.offers) && AllFit(r.notify.offers)
             && r.parsed == [] && r.held == [] && r.notifying == [] && r.main.queue == [] && r.notify.queue == []
    ensures var r := After(s, steps);
            && Taken(r.processed) == AllParsed(r.received)
            && Sound(r.processed) && r.notify.popped == BatchesOf(r.processed, NotifyUpwards)
  {
    hide Run, AllParsed, Accepted, Offers, Taken, BatchesOf;
    var r := After(s, steps);
    Conservation(s, steps);
    FitMeansAccepted(r.main.offers);
    FitMeansAccepted(r.notify.offers);
    assert Taken(r.processed) + [] + [] == Taken(r.processed);
    assert Offers(r.main.offers) + [] == Offers(r.main.offers);
    assert Offers(r.notify.offers) + [] == Offers(r.notify.offers);
    assert r.notify.popped + [] == r.notify.popped;
  }

  /** Every entry of the notify queue, waiting or sent, is an update event the sender can index with. */
  lemma EntriesHold(s: State, steps: seq<Step>)
    requires Initial(s)
    ensures forall e :: e in After(s, steps).notify.queue || e in After(s, steps).notify.popped ==>
              Entry(e) && Proper(e)
  {
    hide Run, Entry, Proper;
    InitialHolds(s);
  }

  /** Each event handed to the sender whose deviation is below 2^64, and no other, can be serialized, and the
      next node parses it into exactly that event, whatever address and stack contents it starts from. */
  lemma NextNodeReceives(s: State, steps: seq<Step>, base: nat, junk: nat)
    requires Initial(s)
    ensures forall e :: e in After(s, steps).notify.popped ==>
              && (Packable(e) <==> e.header.deviation < TWO64)
              && (Packable(e) ==> Parse(MessageBytes(e), base, junk) == Parsed(0, [e]))
  {
    hide Run, Parse, IsFloat;
    EntriesHold(s, steps);
    forall e | e in After(s, steps).notify.popped
      ensures (Packable(e) <==> e.header.deviation < TWO64)
              && (Packable(e) ==> Parse(MessageBytes(e), base, junk) == Parsed(0, [e]))
    {
      if Packable(e) {
        SendThenParse(e, base, junk);
        ReceivedUnchanged(e);
      }
    }
  }

  // ---------------------------------------------------------------- the store

  /** All updates dispatched for a twin. */
  function Writes(ps: seq<Processed>, t: nat): seq<Update>
    requires Sound(ps)
    decreases |ps|
  {
    if ps == [] then []
    else
      var e := ps[|ps| - 1].event;
      Writes(ps[..|ps| - 1], t)
        + (if e.header.kind == EVENT_UPDATE && e.header.twinId == t then e.payload.updates else [])
  }

  lemma {:induction false} ApplyInTwo(m: seq<Twin>, t: nat, us: seq<Update>, more: seq<Update>)
    requires Memory.Shaped(m)
    ensures ApplyUpdates(m, t, us + more) == ApplyUpdates(ApplyUpdates(m, t, us), t, more)
    decreases |more|
  {
    if more == [] {
      assert us + more == us;
    } else {
      var n := |us + more| - 1;
      assert (us + more)[..n] == us + more[..|more| - 1];
      ApplyInTwo(m, t, us, more[..|more| - 1]);
    }
  }

  lemma {:induction false} StoredPerTwin(m: seq<Twin>, ps: seq<Processed>, t: nat)
    requires Memory.Shaped(m) && Sound(ps) && t < MAX_TWINS
    ensures AllStored(m, ps)[t] == ApplyUpdates(m, t, Writes(ps, t))[t]
    decreases |ps|
  {
    hide Proper;
    if ps != [] {
      var front, e := ps[..|ps| - 1], ps[|ps| - 1].event;
      StoredPerTwin(m, front, t);
      assert ps[|ps| - 1] in ps && Proper(e);
      ProperConsistent(e);
      var before := AllStored(m, front);
      if e.header.kind == EVENT_UPDATE {
        if e.header.twinId == t {
          ApplyInTwo(m, t, Writes(front, t), e.payload.updates);
          OneTwinOnly(before, ApplyUpdates(m, t, Writes(front, t)), t, e.payload.updates);
        } else {
          OtherTwin(before, e.header.twinId, e.payload.updates, t);
        }
      }
      assert Writes(front, t) + [] == Writes(front, t);
    }
  }

  lemma {:induction false} OneTwinOnly(m: seq<Twin>, m': seq<Twin>, t: nat, us: seq<Update>)
    requires Memory.Shaped(m) && Memory.Shaped(m') && t < MAX_TWINS && m[t] == m'[t]
    ensures ApplyUpdates(m, t, us)[t] == ApplyUpdates(m', t, us)[t]
    decreases |us|
  {
    if us != [] {
      OneTwinOnly(m, m', t, us[..|us| - 1]);
    }
  }

  lemma {:induction false} OtherTwin(m: seq<Twin>, t: nat, us: seq<Update>, other: nat)
    requires Memory.Shaped(m) && other < MAX_TWINS && other != t
    ensures ApplyUpdates(m, t, us)[other] == m[other]
    decreases |us|
  {
    if us != [] {
      OtherTwin(m, t, us[..|us| - 1], other);
    }
  }

  /** After any run every variable holds the value of the last dispatched update addressed to it, and zero
      when there was none; deletions do not clear it. */
  lemma StoreAfterRun(s: State, steps: seq<Step>, t: nat, v: nat)
    requires Initial(s) && t < MAX_TWINS && v < MAX_VARS_PER_TWINS
    ensures var r := After(s, steps);
            && Sound(r.processed)
            && var us := Writes(r.processed, t);
               r.memory[t].vars[v] == if LastWrite(us, v) >= 0 then us[LastWrite(us, v)].bits else 0
  {
    hide Run, AllParsed, Accepted, Offers, Taken, BatchesOf, ApplyUpdates, Writes, Typed, LineOk;
    InitialHolds(s);
    var r := After(s, steps);
    StoredPerTwin(EmptyStore(), r.processed, t);
    LastWriterWins(EmptyStore(), t, Writes(r.processed, t));
  }

  lemma {:induction false} ApplyFits(m: seq<Twin>, t: nat, us: seq<Update>)
    requires Fitting(m) && InFields(us)
    ensures Fitting(ApplyUpdates(m, t, us))
    decreases |us|
  {
    if us != [] {
      var u := us[|us| - 1];
      assert u in us;
      ApplyFits(m, t, us[..|us| - 1]);
    }
  }

  lemma StepFits(s: State, step: Step)
    requires Pipeline.Inv(s) && Fitting(s.memory)
    ensures Fitting(Next(s, step).memory)
  {
    hide LineOk, Conserved, BatchOf, Parse, ApplyUpdates, Entries, SameVars, IsFloat;
    if step.Dispatch? && s.held != [] {
      assert s.held[0] in s.held;
      var e := s.held[0];
      if e.header.kind == EVENT_UPDATE {
        ApplyFits(s.memory, e.header.twinId, e.payload.updates);
      }
    }
  }

  /** In every reachable state each twin's status is one of the two and each value fits its field, which is
      what the query server relies on. */
  lemma {:induction false} StoreFits(s: State, steps: seq<Step>)
    requires Initial(s)
    ensures Fitting(After(s, steps).memory)
    decreases |steps|
  {
    hide Next, Pipeline.Inv;
    InitialHolds(s);
    if steps == [] {
    } else {
      StoreFits(s, steps[..|steps| - 1]);
      StepFits(After(s, steps[..|steps| - 1]), steps[|steps| - 1]);
    }
  }

  // ---------------------------------------------------------------- the connectors

  /** The sender opens this many of its MAX_TWINS connectors. */
  const CONNECTED: nat := 5

  /** A batch comes from a rule. */
  lemma BatchHasRule(table: Table, e: Event) returns (v: nat)
    requires Rules.Shaped(table) && Consistent(e) && e.header.kind == EVENT_UPDATE
    requires Batch(table, e, NotifyUpwards) != []
    ensures RuleOf(table, e.header.twinId, v) == NotifyUpwards
  {
    hide RuleOf, Chosen;
    var ps := ChosenIsFilter(table, e.header.twinId, e.payload.updates, NotifyUpwards);
    assert ps[0] in ps;
    v := e.payload.updates[ps[0]].varId;
  }

  /** A rule can make a batch. */
  lemma RuleMakesBatch(table: Table, t: nat, v: nat) returns (e: Event)
    requires Rules.Shaped(table) && RuleOf(table, t, v) == NotifyUpwards
    ensures Consistent(e) && e.header.kind == EVENT_UPDATE && e.header.twinId == t
    ensures Batch(table, e, NotifyUpwards) != []
  {
    hide RuleOf, Chosen;
    var u := Update(v, 0);
    e := Event(Header(EVENT_UPDATE, 0, 0, t), Updates([u]));
    ChosenGrows(table, t, [], u, NotifyUpwards);
    assert [] + [u] == [u];
  }

  /** The dispatcher can hand the sender an event for a twin without an open connector exactly when the
      table holds a notify rule for such a twin. */
  lemma ReachesClosedConnector(table: Table)
    requires Rules.Shaped(table)
    ensures (exists e :: Consistent(e) && e.header.kind == EVENT_UPDATE && e.header.twinId >= CONNECTED
                         && Batch(table, e, NotifyUpwards) != [])
       <==> exists t, v :: t >= CONNECTED && RuleOf(table, t, v) == NotifyUpwards
  {
    hide RuleOf, Batch;
    if e :| Consistent(e) && e.header.kind == EVENT_UPDATE && e.header.twinId >= CONNECTED
            && Batch(table, e, NotifyUpwards) != [] {
      var v := BatchHasRule(table, e);
    }
    if t, v :| t >= CONNECTED && RuleOf(table, t, v) == NotifyUpwards {
      var e := RuleMakesBatch(table, t, v);
    }
  }

  /** No notify rule for a twin without a connector. */
  ghost predicate Tame(table: Table) {
    Rules.Shaped(table) && forall t: nat, v: nat :: t >= CONNECTED ==> RuleOf(table, t, v) != NotifyUpwards
  }

  ghost predicate TameStep(step: Step) {
    step.SetRule? ==> !(step.twin >= CONNECTED && step.rule == NotifyUpwards)
  }

  ghost predicate Connected(es: seq<Event>) {
    forall e :: e in es ==> e.header.twinId < CONNECTED
  }

  lemma BatchConnected(p: Processed)
    requires Tame(p.table) && Consistent(p.event)
    ensures Connected(BatchOf(p, NotifyUpwards))
  {
    if p.event.header.kind == EVENT_UPDATE && BatchOf(p, NotifyUpwards) != [] {
      var e := p.event;
      var ps := ChosenIsFilter(p.table, e.header.twinId, e.payload.updates, NotifyUpwards);
      assert ps[0] in ps;
      assert RuleOf(p.table, e.header.twinId, e.payload.updates[ps[0]].varId) == NotifyUpwards;
    }
  }

  ghost predicate TameState(s: State) {
    Tame(s.table) && Connected(s.notifying) && Connected(s.notify.queue) && Connected(s.notify.popped)
  }

  lemma StepTame(s: State, step: Step)
    requires Pipeline.Inv(s) && TameState(s) && TameStep(step)
    ensures TameState(Next(s, step))
  {
    hide LineOk, Conserved, Typed, BatchOf, Parse, Stored, RuleOf;
    match step
    case Dispatch =>
      if s.held != [] {
        assert s.held[0] in s.held;
        BatchConnected(Processed(s.held[0], s.table));
      }
    case SetRule(t, v, rule) =>
      if t < MAX_TWINS && v < MAX_VARS_PER_TWINS {
        RuleKeepsTame(s.table, t, v, rule);
      }
    case _ =>
  }

  lemma RuleKeepsTame(table: Table, t: nat, v: nat, rule: Action)
    requires Tame(table) && !(t >= CONNECTED && rule == NotifyUpwards)
    requires t < MAX_TWINS && v < MAX_VARS_PER_TWINS
    ensures Tame(table[t := table[t][v := rule]])
  {
    var after := table[t := table[t][v := rule]];
    forall t': nat, v': nat | t' >= CONNECTED
      ensures RuleOf(after, t', v') != NotifyUpwards
    {
      assert RuleOf(table, t', v') != NotifyUpwards;
    }
  }

  /** As long as nobody sets such a rule, every event the sender pops has an open connector. */
  lemma {:induction false} SendsToOpenConnectors(s: State, steps: seq<Step>)
    requires Initial(s) && Tame(s.table) && forall step :: step in steps ==> TameStep(step)
    ensures TameState(After(s, steps))
    decreases |steps|
  {
    hide Next, TameStep, Pipeline.Inv;
    InitialHolds(s);
    if steps == [] {
    } else {
      SendsToOpenConnectors(s, steps[..|steps| - 1]);
      assert steps[|steps| - 1] in steps;
      StepTame(After(s, steps[..|steps| - 1]), steps[|steps| - 1]);
    }
  }
}
