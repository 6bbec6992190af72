/** Whole runs of the engine: the receiver, processor and sender threads, rule changes and deletions,
    interleaved in any order, and a consumer of the user actions, which the engine leaves to its user.
    Each queue operation is one step; `Threads` shows that this loses nothing. */
module Pipeline {
  import opened Bytes
  import opened Events
  import opened Queue
  import opened Memory
  import opened Rules
  import opened Dispatcher
  import opened Routing
  import opened Parser
  import opened ParsedEvents
  import opened Sender

  /** A received message, with the buffer address and the stack contents its parsing starts from. */
  datatype Message = Message(data: seq<byte>, base: nat, junk: nat)

  /** A push, with how many events the queue held when it was made. */
  datatype Offered = Offered(event: Event, before: nat)

  /** An event handed to the dispatcher, with the rules at that moment. */
  datatype Processed = Processed(event: Event, table: Table)

  /** One queue with its history: every push made to it and everything popped from it. */
  datatype Line = Line(offers: seq<Offered>, queue: seq<Event>, popped: seq<Event>)

  datatype State = State(
    parsed: seq<Event>,      // events of the last message not yet pushed by the receiver
    held: seq<Event>,        // the event the processor has popped and not dispatched
    notifying: seq<Event>,   // the batch to notify, not yet pushed
    acting: seq<Event>,      // the batch for user actions, not yet pushed
    main: Line, notify: Line, action: Line,
    memory: seq<Twin>, table: Table,
    received: seq<Message>, processed: seq<Processed>)

  datatype Step =
    | Receive(m: Message)
    | Enqueue
    | Take
    | Dispatch
    | PushNotify
    | PushAction
    | Send
    | Serve
    | SetRule(twin: nat, varId: nat, rule: Action)
    | Delete(twin: nat)

  function Push(l: Line, e: Event): Line {
    l.(offers := l.offers + [Offered(e, |l.queue|)], queue := Offer(l.queue, e))
  }

  function Pop(l: Line): Line
    requires l.queue != []
  {
    l.(queue := l.queue[1..], popped := l.popped + [l.queue[0]])
  }

  /** The batch a processed event yields for an action. */
  function BatchOf(p: Processed, action: Action): seq<Event>
    requires Rules.Shaped(p.table) && Consistent(p.event)
  {
    if p.event.header.kind == EVENT_UPDATE then Batch(p.table, p.event, action) else []
  }

  function Stored(m: seq<Twin>, e: Event): (r: seq<Twin>)
    requires Memory.Shaped(m) && Consistent(e)
    ensures Memory.Shaped(r)
  {
    if e.header.kind == EVENT_UPDATE then ApplyUpdates(m, e.header.twinId, e.payload.updates) else m
  }

  ghost predicate Shape(s: State) {
    && Memory.Shaped(s.memory) && Rules.Shaped(s.table)
    && |s.held| <= 1 && |s.notifying| <= 1 && |s.acting| <= 1
    && (forall e :: e in s.held ==> Consistent(e))
  }

  /** One step; a step whose thread is not ready for it changes nothing. */
  function Next(s: State, step: Step): State
    requires Shape(s)
  {
    match step
    case Receive(m) =>
      if s.parsed == [] && |m.data| <= ZMQ_BUFFER_SIZE && m.junk < TWO64
      then s.(parsed := Parse(m.data, m.base, m.junk).events, received := s.received + [m]) else s
    case Enqueue =>
      if s.parsed != [] then s.(main := Push(s.main, s.parsed[0]), parsed := s.parsed[1..]) else s
    case Take =>
      if s.held == [] && s.notifying == [] && s.acting == [] && s.main.queue != []
      then s.(held := [s.main.queue[0]], main := Pop(s.main)) else s
    case Dispatch =>
      if s.held == [] then s
      else
        var p := Processed(s.held[0], s.table);
        s.(held := [], memory := Stored(s.memory, s.held[0]), processed := s.processed + [p],
           notifying := s.notifying + BatchOf(p, NotifyUpwards), acting := s.acting + BatchOf(p, CallUserService))
    case PushNotify =>
      if s.notifying != [] then s.(notify := Push(s.notify, s.notifying[0]), notifying := []) else s
    case PushAction =>
      if s.notifying == [] && s.acting != []
      then s.(action := Push(s.action, s.acting[0]), acting := []) else s
    case Send => if s.notify.queue != [] then s.(notify := Pop(s.notify)) else s
    case Serve => if s.action.queue != [] then s.(action := Pop(s.action)) else s
    case SetRule(t, v, rule) =>
      if t < MAX_TWINS && v < MAX_VARS_PER_TWINS then s.(table := s.table[t := s.table[t][v := rule]]) else s
    case Delete(t) =>
      if t < MAX_TWINS then s.(memory := s.memory[t := s.memory[t].(status := STATUS_GONE)]) else s
  }

  // ---------------------------------------------------------------- histories

  function Accepted(os: seq<Offered>): seq<Event>
    decreases |os|
  {
    if os == [] then []
    else
      var o := os[|os| - 1];
      Accepted(os[..|os| - 1]) + (if o.before < CAPACITY then [o.event] else [])
  }

  function Offers(os: seq<Offered>): seq<Event>
    decreases |os|
  {
    if os == [] then [] else Offers(os[..|os| - 1]) + [os[|os| - 1].event]
  }

  function AllParsed(ms: seq<Message>): seq<Event>
    decreases |ms|
  {
    if ms == [] then []
    else
      var m := ms[|ms| - 1];
      AllParsed(ms[..|ms| - 1]) + Parse(m.data, m.base, m.junk).events
  }

  function Taken(ps: seq<Processed>): seq<Event>
    decreases |ps|
  {
    if ps == [] then [] else Taken(ps[..|ps| - 1]) + [ps[|ps| - 1].event]
  }

  ghost predicate Sound(ps: seq<Processed>) {
    forall p :: p in ps ==> Rules.Shaped(p.table) && Proper(p.event)
  }

  function BatchesOf(ps: seq<Processed>, action: Action): seq<Event>
    requires Sound(ps)
    decreases |ps|
  {
    if ps == [] then [] else BatchesOf(ps[..|ps| - 1], action) + BatchOf(ps[|ps| - 1], action)
  }

  function AllStored(m: seq<Twin>, ps: seq<Processed>): (r: seq<Twin>)
    requires Memory.Shaped(m) && Sound(ps)
    ensures Memory.Shaped(r)
    decreases |ps|
  {
    if ps == [] then m else Stored(AllStored(m, ps[..|ps| - 1]), ps[|ps| - 1].event)
  }

  // ---------------------------------------------------------------- the invariant

  /** Every push is accounted for: what was accepted has been popped or is queued, in order. */
  ghost predicate LineOk(l: Line) {
    Accepted(l.offers) == l.popped + l.queue && |l.queue| <= CAPACITY
  }

  ghost predicate Entries(es: seq<Event>) {
    forall e :: e in es ==> Entry(e) && Proper(e)
  }

  ghost predicate Propers(es: seq<Event>) {
    forall e :: e in es ==> Proper(e)
  }

  /** The variables agree; the statuses may differ, because a deletion changes only those. */
  ghost predicate SameVars(m: seq<Twin>, m': seq<Twin>) {
    Memory.Shaped(m) && Memory.Shaped(m') && forall t :: 0 <= t < MAX_TWINS ==> m[t].vars == m'[t].vars
  }

  ghost predicate Conserved(s: State) {
    && Sound(s.processed)
    && AllParsed(s.received) == Offers(s.main.offers) + s.parsed
    && s.main.popped == Taken(s.processed) + s.held
    && BatchesOf(s.processed, NotifyUpwards) == Offers(s.notify.offers) + s.notifying
    && BatchesOf(s.processed, CallUserService) == Offers(s.action.offers) + s.acting
  }

  ghost predicate Typed(s: State) {
    && Propers(s.parsed) && Propers(s.main.queue) && Propers(s.held)
    && Entries(s.notifying) && Entries(s.notify.queue) && Entries(s.notify.popped)
    && Entries(s.acting) && Entries(s.action.queue) && Entries(s.action.popped)
  }

  ghost predicate Inv(s: State) {
    && Shape(s) && (s.held != [] ==> s.notifying == [] && s.acting == [])
    && LineOk(s.main) && LineOk(s.notify) && LineOk(s.action)
    && Conserved(s) && Typed(s)
    && SameVars(s.memory, AllStored(EmptyStore(), s.processed))
  }

  ghost predicate Initial(s: State) {
    && s.parsed == [] && s.held == [] && s.notifying == [] && s.acting == []
    && s.main == Line([], [], []) && s.notify == Line([], [], []) && s.action == Line([], [], [])
    && s.memory == EmptyStore() && Rules.Shaped(s.table) && s.received == [] && s.processed == []
  }

  // ---------------------------------------------------------------- queues

  lemma Snoc<T>(s: seq<T>, x: T)
    ensures (s + [x])[..|s + [x]| - 1] == s && (s + [x])[|s + [x]| - 1] == x
  {
  }

  lemma PushKeeps(l: Line, e: Event)
    requires LineOk(l)
    ensures LineOk(Push(l, e)) && Offers(Push(l, e).offers) == Offers(l.offers) + [e]
    ensures Push(l, e).popped == l.popped
    ensures forall x :: x in Push(l, e).queue ==> x in l.queue || x == e
  {
    Snoc(l.offers, Offered(e, |l.queue|));
  }

  lemma PopKeeps(l: Line)
    requires LineOk(l) && l.queue != []
    ensures LineOk(Pop(l)) && Pop(l).offers == l.offers
    ensures forall x :: x in Pop(l).queue || x in Pop(l).popped ==> x in l.queue || x in l.popped
  {
  }

  // ---------------------------------------------------------------- one step

  lemma ReceiveKeeps(s: State, m: Message)
    requires Inv(s)
    ensures Inv(Next(s, Receive(m)))
  {
    hide Parse, BatchesOf, AllStored, Offers, Accepted, Proper, Entry;
    if s.parsed == [] && |m.data| <= ZMQ_BUFFER_SIZE && m.junk < TWO64 {
      ParseProper(m.data, m.base, m.junk);
      Snoc(s.received, m);
      var es := Parse(m.data, m.base, m.junk).events;
      assert AllParsed(s.received + [m]) == AllParsed(s.received) + es;
      assert Offers(s.main.offers) + [] == Offers(s.main.offers);
    }
  }

  lemma EnqueueKeeps(s: State)
    requires Inv(s)
    ensures Inv(Next(s, Enqueue))
  {
    hide AllParsed, BatchesOf, AllStored, Offers, Accepted, Proper, Entry, Push;
    if s.parsed != [] {
      PushKeeps(s.main, s.parsed[0]);
      assert s.parsed == [s.parsed[0]] + s.parsed[1..];
    }
  }

  lemma TakeKeeps(s: State)
    requires Inv(s)
    ensures Inv(Next(s, Take))
  {
    hide AllParsed, BatchesOf, AllStored, Offers, Accepted, Entry, LineOk;
    if s.held == [] && s.notifying == [] && s.acting == [] && s.main.queue != [] {
      assert s.main.queue[0] in s.main.queue;
      assert |s.main.queue| > 0;
      PopKeeps(s.main);
    }
  }

  lemma {:induction false} ApplyVarsOnly(m: seq<Twin>, m': seq<Twin>, t: nat, us: seq<Update>)
    requires SameVars(m, m')
    ensures SameVars(ApplyUpdates(m, t, us), ApplyUpdates(m', t, us))
    decreases |us|
  {
    if us != [] {
      ApplyVarsOnly(m, m', t, us[..|us| - 1]);
    }
  }

  lemma BatchEntries(p: Processed, action: Action)
    requires Rules.Shaped(p.table) && Proper(p.event) && action != Ignore
    ensures Entries(BatchOf(p, action)) && |BatchOf(p, action)| <= 1
  {
    hide IsFloat, Entry;
    if p.event.header.kind == EVENT_UPDATE {
      var us, t := p.event.payload.updates, p.event.header.twinId;
      BatchIsEntry(p.table, p.event, action);
      var ps := ChosenIsFilter(p.table, t, us, action);
      var chosen := Chosen(p.table, t, us, action);
      assert InFields(chosen) by {
        forall u | u in chosen
          ensures u in us
        {
          var k :| 0 <= k < |chosen| && chosen[k] == u;
          assert u == us[ps[k]];
        }
      }
    }
  }

  lemma DispatchConserves(s: State)
    requires Inv(s) && s.held != []
    ensures Conserved(Next(s, Dispatch))
  {
    hide AllParsed, AllStored, Offers, Accepted, Entry, Stored, BatchOf, LineOk, Entries, SameVars;
    var p := Processed(s.held[0], s.table);
    var n := Next(s, Dispatch);
    Snoc(s.processed, p);
    assert s.held[0] in s.held && s.held == [s.held[0]];
    assert Sound(n.processed);
    assert n.main.popped == Taken(n.processed) + [];
    assert BatchesOf(n.processed, NotifyUpwards) == Offers(s.notify.offers) + s.notifying + BatchOf(p, NotifyUpwards);
    assert BatchesOf(n.processed, CallUserService) == Offers(s.action.offers) + s.acting + BatchOf(p, CallUserService);
  }

  lemma DispatchTyped(s: State)
    requires Inv(s) && s.held != []
    ensures var n := Next(s, Dispatch); Typed(n) && |n.notifying| <= 1 && |n.acting| <= 1
  {
    hide AllParsed, BatchesOf, Offers, Accepted, Entry, LineOk, BatchOf, Taken, Conserved, AllStored, Stored, SameVars;
    var p := Processed(s.held[0], s.table);
    assert s.held[0] in s.held;
    ProperConsistent(p.event);
    BatchEntries(p, NotifyUpwards);
    BatchEntries(p, CallUserService);
    hide Proper;
    assert s.notifying + BatchOf(p, NotifyUpwards) == BatchOf(p, NotifyUpwards);
    assert s.acting + BatchOf(p, CallUserService) == BatchOf(p, CallUserService);
  }

  lemma StoredAlike(m: seq<Twin>, m': seq<Twin>, e: Event)
    requires SameVars(m, m') && Consistent(e)
    ensures SameVars(Stored(m, e), Stored(m', e))
  {
    hide SameVars;
    if e.header.kind == EVENT_UPDATE {
      ApplyVarsOnly(m, m', e.header.twinId, e.payload.updates);
    }
  }

  lemma DispatchStores(s: State)
    requires Inv(s) && s.held != []
    ensures var n := Next(s, Dispatch);
            && Memory.Shaped(n.memory) && Sound(n.processed)
            && SameVars(n.memory, AllStored(EmptyStore(), n.processed))
  {
    hide AllParsed, BatchesOf, Offers, Accepted, Proper, Entry, LineOk, BatchOf, Taken, Conserved, Typed, Stored, SameVars;
    var p := Processed(s.held[0], s.table);
    assert s.held[0] in s.held;
    ConservedSound(s);
    DispatchConserves(s);
    ConservedSound(Next(s, Dispatch));
    Snoc(s.processed, p);
    StoredAlike(s.memory, AllStored(EmptyStore(), s.processed), p.event);
  }

  lemma DispatchKeeps(s: State)
    requires Inv(s)
    ensures Inv(Next(s, Dispatch))
  {
    hide LineOk, Conserved, Typed, SameVars, AllStored, BatchOf, Stored;
    if s.held != [] {
      DispatchConserves(s);
      DispatchTyped(s);
      DispatchStores(s);
    }
  }

  lemma ProperConsistent(e: Event)
    requires Proper(e)
    ensures Consistent(e)
  {
  }

  lemma ConservedSound(s: State)
    requires Conserved(s)
    ensures Sound(s.processed)
  {
  }

  lemma PushNotifyKeeps(s: State)
    requires Inv(s)
    ensures Inv(Next(s, PushNotify))
  {
    hide AllParsed, BatchesOf, AllStored, Offers, Accepted, Proper, Entry, Push, Taken;
    if s.notifying != [] {
      PushKeeps(s.notify, s.notifying[0]);
      assert s.notifying == [s.notifying[0]];
      assert s.notifying[0] in s.notifying;
      var n := Next(s, PushNotify);
      assert Offers(n.notify.offers) + [] == Offers(s.notify.offers) + s.notifying;
    }
  }

  lemma PushActionKeeps(s: State)
    requires Inv(s)
    ensures Inv(Next(s, PushAction))
  {
    hide AllParsed, BatchesOf, AllStored, Offers, Accepted, Proper, Entry, Push, Taken;
    if s.notifying == [] && s.acting != [] {
      PushKeeps(s.action, s.acting[0]);
      assert s.acting == [s.acting[0]];
      assert s.acting[0] in s.acting;
      var n := Next(s, PushAction);
      assert Offers(n.action.offers) + [] == Offers(s.action.offers) + s.acting;
    }
  }

  lemma SendKeeps(s: State)
    requires Inv(s)
    ensures Inv(Next(s, Send)) && Inv(Next(s, Serve))
  {
    hide AllParsed, BatchesOf, AllStored, Offers, Accepted, Proper, Entry, Taken;
    if s.notify.queue != [] {
      PopKeeps(s.notify);
    }
    if s.action.queue != [] {
      PopKeeps(s.action);
    }
  }

  lemma SetRuleKeeps(s: State, t: nat, v: nat, rule: Action)
    requires Inv(s)
    ensures Inv(Next(s, SetRule(t, v, rule)))
  {
    hide AllParsed, BatchesOf, AllStored, Offers, Accepted, Proper, Entry, Taken, LineOk, Entries;
  }

  lemma DeleteKeeps(s: State, t: nat)
    requires Inv(s)
    ensures Inv(Next(s, Delete(t)))
  {
    hide AllParsed, BatchesOf, AllStored, Offers, Accepted, Proper, Entry, Taken, LineOk, Entries;
  }

  lemma StepKeeps(s: State, step: Step)
    requires Inv(s)
    ensures Inv(Next(s, step))
  {
    hide Next, Inv;
    match step
    case Receive(m) => ReceiveKeeps(s, m);
    case Enqueue => EnqueueKeeps(s);
    case Take => TakeKeeps(s);
    case Dispatch => DispatchKeeps(s);
    case PushNotify => PushNotifyKeeps(s);
    case PushAction => PushActionKeeps(s);
    case Send => SendKeeps(s);
    case Serve => SendKeeps(s);
    case SetRule(t, v, rule) => SetRuleKeeps(s, t, v, rule);
    case Delete(t) => DeleteKeeps(s, t);
  }

  // ---------------------------------------------------------------- runs

  function Run(s: State, steps: seq<Step>): (r: State)
    requires Inv(s)
    ensures Inv(r)
    decreases |steps|
  {
    if steps == [] then s
    else
      var before := Run(s, steps[..|steps| - 1]);
      StepKeeps(before, steps[|steps| - 1]);
      Next(before, steps[|steps| - 1])
  }

  lemma InitialHolds(s: State)
    requires Initial(s)
    ensures Inv(s)
  {
  }
}
