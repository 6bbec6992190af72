/** The steps of a run do their work: from any idle state a message is carried through to the end. */
module Progress {
  import opened Bytes
  import opened Events
  import opened Queue
  import opened Memory
  import opened Rules
  import opened Dispatcher
  import opened Parser
  import opened ParsedEvents
  import opened Pipeline

  /** Nothing is under way behind the receiver. */
  ghost predicate Quiet(s: State) {
    && s.held == [] && s.notifying == [] && s.acting == []
    && s.main.queue == [] && s.notify.queue == [] && s.action.queue == []
  }

  const ROUND: seq<Step> := [Enqueue, Take, Dispatch, PushNotify, PushAction, Send, Serve]

  function Rounds(n: nat): seq<Step> {
    if n == 0 then [] else ROUND + Rounds(n - 1)
  }

  lemma {:induction false} RunInTwo(s: State, a: seq<Step>, b: seq<Step>)
    requires Inv(s)
    ensures Run(s, a + b) == Run(Run(s, a), b)
    decreases |b|
  {
    hide Next, Inv;
    if b == [] {
      assert a + b == a;
    } else {
      var n := |a + b| - 1;
      assert (a + b)[..n] == a + b[..|b| - 1];
      RunInTwo(s, a, b[..|b| - 1]);
    }
  }

  lemma RunFirst(s: State, step: Step, rest: seq<Step>)
    requires Inv(s)
    ensures Inv(Next(s, step)) && Run(s, [step] + rest) == Run(Next(s, step), rest)
  {
    hide Next, Inv;
    StepKeeps(s, step);
    RunInTwo(s, [step], rest);
    assert [step][..0] == [];
  }

  /** The entry the processor makes of the first parsed event. */
  function Entered(s: State): Processed
    requires s.parsed != []
  {
    Processed(s.parsed[0], s.table)
  }

  lemma ToDispatch(s: State)
    requires Inv(s) && Quiet(s) && s.parsed != []
    ensures var p := Entered(s); Rules.Shaped(p.table) && Proper(p.event) && Consistent(p.event)
    ensures var p := Entered(s);
            var r := Run(s, [Enqueue, Take, Dispatch]);
            && r.parsed == s.parsed[1..] && r.held == [] && r.main.queue == [] && r.table == s.table
            && r.processed == s.processed + [p] && r.memory == Stored(s.memory, p.event)
            && r.notifying == BatchOf(p, NotifyUpwards) && r.acting == BatchOf(p, CallUserService)
            && r.notify == s.notify && r.action == s.action && r.received == s.received
  {
    hide BatchOf, Stored, Inv, Proper, Shape;
    FirstProper(s);
    var p := Entered(s);
    ProperConsistent(p.event);
    InvShape(s);
    RunFirst(s, Enqueue, [Take, Dispatch]);
    var s1 := Next(s, Enqueue);
    InvShape(s1);
    RunFirst(s1, Take, [Dispatch]);
    var s2 := Next(s1, Take);
    InvShape(s2);
    RunFirst(s2, Dispatch, []);
    assert [Enqueue, Take, Dispatch] == [Enqueue] + [Take, Dispatch];
    assert [Take, Dispatch] == [Take] + [Dispatch] && [Dispatch] == [Dispatch] + [];
    assert s1.main.queue == [p.event];
    assert s2.held == [p.event];
    assert Run(s, [Enqueue, Take, Dispatch]) == Next(s2, Dispatch);
    assert [] + BatchOf(p, NotifyUpwards) == BatchOf(p, NotifyUpwards);
    assert [] + BatchOf(p, CallUserService) == BatchOf(p, CallUserService);
  }

  lemma InvShape(s: State)
    requires Inv(s)
    ensures Shape(s)
  {
  }

  lemma FirstProper(s: State)
    requires Inv(s) && s.parsed != []
    ensures Rules.Shaped(s.table) && Memory.Shaped(s.memory) && Proper(s.parsed[0])
  {
  }

  /** Both batches reach their queues. */
  lemma Pushed(s: State)
    requires Inv(s) && s.notify.queue == [] && s.action.queue == []
    ensures Run(s, [PushNotify, PushAction]) ==
              s.(notifying := [], acting := [],
                 notify := Line(Run(s, [PushNotify, PushAction]).notify.offers, s.notifying, s.notify.popped),
                 action := Line(Run(s, [PushNotify, PushAction]).action.offers, s.acting, s.action.popped))
  {
    hide Inv, BatchOf, Stored, Parse, Shape;
    InvShape(s);
    AtMostOne(s);
    RunFirst(s, PushNotify, [PushAction]);
    var s1 := Next(s, PushNotify);
    InvShape(s1);
    RunFirst(s1, PushAction, []);
    assert [PushNotify, PushAction] == [PushNotify] + [PushAction] && [PushAction] == [PushAction] + [];
    assert Run(s, [PushNotify, PushAction]) == Next(s1, PushAction);
  }

  lemma AtMostOne(s: State)
    requires Inv(s)
    ensures s.notifying == [] || s.notifying == [s.notifying[0]]
    ensures s.acting == [] || s.acting == [s.acting[0]]
  {
  }

  /** The sender and the consumer take one event each. */
  lemma Popped(s: State)
    requires Inv(s) && |s.notify.queue| <= 1 && |s.action.queue| <= 1
    ensures Run(s, [Send, Serve]) ==
              s.(notify := Line(s.notify.offers, [], s.notify.popped + s.notify.queue),
                 action := Line(s.action.offers, [], s.action.popped + s.action.queue))
  {
    hide Inv, BatchOf, Stored, Parse, Shape;
    InvShape(s);
    RunFirst(s, Send, [Serve]);
    var s1 := Next(s, Send);
    InvShape(s1);
    RunFirst(s1, Serve, []);
    assert [Send, Serve] == [Send] + [Serve] && [Serve] == [Serve] + [];
    assert Run(s, [Send, Serve]) == Next(s1, Serve);
    assert s.notify.queue == [] || s.notify.queue == [s.notify.queue[0]];
    assert s.action.queue == [] || s.action.queue == [s.action.queue[0]];
  }

  lemma FromDispatch(s: State)
    requires Inv(s) && s.held == [] && s.main.queue == [] && s.notify.queue == [] && s.action.queue == []
    ensures var r := Run(s, [PushNotify, PushAction, Send, Serve]);
            && Quiet(r) && r.parsed == s.parsed && r.main == s.main && r.table == s.table
            && r.processed == s.processed && r.memory == s.memory && r.received == s.received
            && r.notify.popped == s.notify.popped + s.notifying && r.action.popped == s.action.popped + s.acting
  {
    hide Inv, Run, Next;
    AtMostOne(s);
    Pushed(s);
    Popped(Run(s, [PushNotify, PushAction]));
    RunInTwo(s, [PushNotify, PushAction], [Send, Serve]);
    assert [PushNotify, PushAction, Send, Serve] == [PushNotify, PushAction] + [Send, Serve];
  }

  /** One round carries the first parsed event through the processor and out of the queues. */
  lemma RoundCarries(s: State)
    requires Inv(s) && Quiet(s) && s.parsed != []
    ensures var p := Entered(s); Rules.Shaped(p.table) && Proper(p.event) && Consistent(p.event)
    ensures var p, r := Entered(s), Run(s, ROUND);
            && Quiet(r) && r.parsed == s.parsed[1..] && r.table == s.table && r.received == s.received
            && r.processed == s.processed + [p] && r.memory == Stored(s.memory, p.event)
            && r.notify.popped == s.notify.popped + BatchOf(p, NotifyUpwards)
            && r.action.popped == s.action.popped + BatchOf(p, CallUserService)
  {
    hide Inv, Next, Run, BatchOf, Stored, Proper;
    ToDispatch(s);
    FromDispatch(Run(s, [Enqueue, Take, Dispatch]));
    RunInTwo(s, [Enqueue, Take, Dispatch], [PushNotify, PushAction, Send, Serve]);
    assert ROUND == [Enqueue, Take, Dispatch] + [PushNotify, PushAction, Send, Serve];
  }

  /** The entries the processor makes of parsed events while nobody changes a rule. */
  function EnteredAll(es: seq<Event>, table: Table): seq<Processed> {
    seq(|es|, i requires 0 <= i < |es| => Processed(es[i], table))
  }

  ghost predicate Carried(s: State, es: seq<Event>, r: State)
    requires Memory.Shaped(s.memory)
  {
    var ps := EnteredAll(es, s.table);
    && Sound(ps) && Quiet(r) && r.parsed == [] && r.table == s.table && r.received == s.received
    && r.processed == s.processed + ps && r.memory == AllStored(s.memory, ps)
    && r.notify.popped == s.notify.popped + BatchesOf(ps, NotifyUpwards)
    && r.action.popped == s.action.popped + BatchesOf(ps, CallUserService)
  }

  lemma {:induction false} BatchesFirst(p: Processed, ps: seq<Processed>, action: Action)
    requires Sound([p] + ps) && Sound(ps) && Consistent(p.event) && Rules.Shaped(p.table)
    ensures BatchesOf([p] + ps, action) == BatchOf(p, action) + BatchesOf(ps, action)
    decreases |ps|
  {
    hide BatchOf, Proper;
    var all := [p] + ps;
    if ps == [] {
      assert all[..0] == [] && all[0] == p;
      assert BatchesOf(all[..0], action) == [];
      assert BatchesOf(all, action) == BatchOf(p, action);
    } else {
      assert all[..|all| - 1] == [p] + ps[..|ps| - 1];
      BatchesFirst(p, ps[..|ps| - 1], action);
    }
  }

  lemma {:induction false} StoredFirst(m: seq<Twin>, p: Processed, ps: seq<Processed>)
    requires Memory.Shaped(m) && Sound([p] + ps) && Sound(ps) && Consistent(p.event)
    ensures AllStored(m, [p] + ps) == AllStored(Stored(m, p.event), ps)
    decreases |ps|
  {
    hide Stored, Proper;
    var all := [p] + ps;
    if ps == [] {
      assert all[..0] == [] && all[0] == p;
      assert AllStored(m, all[..0]) == m;
    } else {
      assert all[..|all| - 1] == [p] + ps[..|ps| - 1];
      StoredFirst(m, p, ps[..|ps| - 1]);
    }
  }

  lemma CarriedMore(s: State, r: State, rest: seq<Event>, last: State)
    requires Memory.Shaped(s.memory) && Memory.Shaped(r.memory) && s.parsed != [] && s.parsed[1..] == rest
    requires Rules.Shaped(s.table) && Proper(s.parsed[0]) && Consistent(s.parsed[0])
    requires var p := Entered(s);
             && r.table == s.table && r.received == s.received
             && r.processed == s.processed + [p] && r.memory == Stored(s.memory, p.event)
             && r.notify.popped == s.notify.popped + BatchOf(p, NotifyUpwards)
             && r.action.popped == s.action.popped + BatchOf(p, CallUserService)
    requires Carried(r, rest, last)
    ensures Carried(s, s.parsed, last)
  {
    hide Proper, BatchOf, BatchesOf, AllStored, Stored;
    var p, ps := Entered(s), EnteredAll(rest, s.table);
    assert EnteredAll(s.parsed, s.table) == [p] + ps;
    assert Sound([p] + ps);
    BatchesFirst(p, ps, NotifyUpwards);
    BatchesFirst(p, ps, CallUserService);
    StoredFirst(s.memory, p, ps);
  }

  /** From any quiet state as many rounds as there are parsed events carry all of them through: each is
      processed once and in order, and the batches they yield are sent and served, in order. */
  lemma {:induction false} RoundsCarry(s: State)
    requires Inv(s) && Quiet(s)
    ensures Memory.Shaped(s.memory) && Carried(s, s.parsed, Run(s, Rounds(|s.parsed|)))
    decreases |s.parsed|
  {
    hide Inv, Next, Run, BatchOf, BatchesOf, AllStored, Stored, Proper, Carried;
    InvShape(s);
    if s.parsed == [] {
      NothingCarried(s);
    } else {
      RoundCarries(s);
      var r := Run(s, ROUND);
      InvShape(r);
      RoundsCarry(r);
      RunInTwo(s, ROUND, Rounds(|s.parsed| - 1));
      CarriedMore(s, r, r.parsed, Run(s, Rounds(|s.parsed|)));
    }
  }

  lemma NothingCarried(s: State)
    requires Inv(s) && Quiet(s) && s.parsed == [] && Memory.Shaped(s.memory)
    ensures Carried(s, [], Run(s, Rounds(0)))
  {
    assert EnteredAll([], s.table) == [];
  }

  /** A message received in a quiet state can always be carried through. */
  lemma MessageCarried(s: State, m: Message)
    requires Inv(s) && Quiet(s) && s.parsed == [] && |m.data| <= ZMQ_BUFFER_SIZE && m.junk < TWO64
    ensures Memory.Shaped(s.memory)
    ensures var es := Parse(m.data, m.base, m.junk).events;
            Carried(s.(received := s.received + [m]), es, Run(s, [Receive(m)] + Rounds(|es|)))
  {
    hide Inv, Run, Parse, BatchesOf, AllStored;
    InvShape(s);
    RunFirst(s, Receive(m), Rounds(|Parse(m.data, m.base, m.junk).events|));
    RoundsCarry(Next(s, Receive(m)));
  }
}
