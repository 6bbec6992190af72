/** The pipeline with its three queues as `RingProtocol` has them: each push and pop is many loads and stores
    of its own thread, interleaved with those of all the others. Every such run is, seen at the moments
    the calls take effect, a run of `Pipeline`, so what `Runs` proves of those holds here. */
module Threads {
  import opened Bytes
  import opened Events
  import opened Queue
  import opened Memory
  import opened Rules
  import opened Dispatcher
  import opened Parser
  import opened ParsedEvents
  import R = RingProtocol
  import P = Pipeline
  import Runs

  // ---------------------------------------------------------------- events as words

  /** The words of an event in a slot: the header, then a count and its updates or a code, a length and
      a message, then filling. */
  const WIDTH: nat := 70

  function Flat(us: seq<Update>): (ws: R.Words)
    ensures |ws| == 2 * |us|
  {
    if us == [] then [] else [us[0].varId, us[0].bits] + Flat(us[1..])
  }

  function Unflat(ws: R.Words, n: nat): (us: seq<Update>)
    ensures |us| <= n
  {
    if n == 0 || |ws| < 2 then [] else [Update(ws[0], ws[1])] + Unflat(ws[2..], n - 1)
  }

  function Letters(s: seq<byte>): (ws: R.Words)
    ensures |ws| == |s| && forall i :: 0 <= i < |s| ==> ws[i] == s[i]
  {
    seq(|s|, i requires 0 <= i < |s| => s[i] as nat)
  }

  function Unletters(ws: R.Words, n: nat): (s: seq<byte>)
    requires n <= |ws|
    ensures |s| == n && forall i :: 0 <= i < n ==> s[i] == ws[i] % 256
  {
    seq(n, i requires 0 <= i < n => ws[i] % 256)
  }

  function Body(p: Payload): R.Words {
    match p
    case Updates(us) => [|us|] + Flat(us)
    case Failure(code, message) => [code, |message|] + Letters(message)
  }

  function Filled(ws: R.Words): (r: R.Words)
    ensures |r| == WIDTH
  {
    if |ws| >= WIDTH then ws[..WIDTH] else ws + seq(WIDTH - |ws|, _ => 0)
  }

  function Encode(e: Event): (ws: R.Words)
    ensures |ws| == WIDTH
  {
    Filled([e.header.kind, e.header.timestamp, e.header.deviation, e.header.twinId] + Body(e.payload))
  }

  function DecodeBody(kind: nat, ws: R.Words): Payload
    requires |ws| == WIDTH - 4
  {
    if kind == EVENT_UPDATE then Updates(Unflat(ws[1..], if ws[0] <= 8 then ws[0] else 8))
    else Failure(ws[0], Unletters(ws[2..], if ws[1] < 64 then ws[1] else 0))
  }

  function Decoded(ws: R.Words): Event {
    if |ws| != WIDTH then Event(Header(0, 0, 0, 0), Updates([]))
    else Event(Header(ws[0], ws[1], ws[2], ws[3]), DecodeBody(ws[0], ws[4..]))
  }

  lemma {:induction false} UnflatFlat(us: seq<Update>, rest: R.Words)
    ensures Unflat(Flat(us) + rest, |us|) == us
  {
    if us != [] {
      UnflatFlat(us[1..], rest);
      var ws := Flat(us) + rest;
      assert ws[0] == us[0].varId && ws[1] == us[0].bits;
      assert ws[2..] == Flat(us[1..]) + rest;
    }
  }

  lemma UnlettersLetters(s: seq<byte>, rest: R.Words)
    ensures Unletters(Letters(s) + rest, |s|) == s
  {
  }

  lemma FilledParts(head: R.Words, body: R.Words)
    requires |head| == 4 && |body| <= WIDTH - 4
    ensures exists rest :: Filled(head + body)[4..] == body + rest && Filled(head + body)[..4] == head
  {
    var ws := head + body;
    var rest := seq(WIDTH - |ws|, _ => 0);
    assert Filled(ws) == head + (body + rest);
  }

  /** Every event the engine handles survives as words. */
  lemma DecodeEncode(e: Event)
    requires Consistent(e)
    ensures Decoded(Encode(e)) == e
  {
    hide Filled, Flat, Unflat, Letters, Unletters;
    var h, body := e.header, Body(e.payload);
    var head := [h.kind, h.timestamp, h.deviation, h.twinId];
    FilledParts(head, body);
    var ws := Encode(e);
    var rest :| ws[4..] == body + rest && ws[..4] == head;
    assert ws[0] == ws[..4][0] && ws[1] == ws[..4][1] && ws[2] == ws[..4][2] && ws[3] == ws[..4][3];
    match e.payload {
      case Updates(us) =>
        assert ws[4..][1..] == Flat(us) + rest;
        UnflatFlat(us, rest);
      case Failure(code, message) =>
        assert ws[4..][2..] == Letters(message) + rest;
        UnlettersLetters(message, rest);
    }
  }

  // ---------------------------------------------------------------- a log as a line

  function DecodeAll(es: seq<R.Words>): (r: seq<Event>)
    ensures |r| == |es| && forall i :: 0 <= i < |es| ==> r[i] == Decoded(es[i])
  {
    seq(|es|, i requires 0 <= i < |es| => Decoded(es[i]))
  }

  function QueueOf(log: seq<R.Outcome>): seq<R.Words> {
    match R.Replay(log)
    case Fifo(q) => q
    case Wrong => []
  }

  function OffersOf(log: seq<R.Outcome>): seq<P.Offered>
    decreases |log|
  {
    if log == [] then []
    else
      var front, o := log[..|log| - 1], log[|log| - 1];
      OffersOf(front) + (if o.Pushed? || o.Full? then [P.Offered(Decoded(o.event), |QueueOf(front)|)] else [])
  }

  /** The pipeline's view of a ring: its log. */
  function LineOf(log: seq<R.Outcome>): P.Line {
    P.Line(OffersOf(log), DecodeAll(QueueOf(log)), DecodeAll(R.PoppedEvents(log)))
  }

  lemma LogThen(log: seq<R.Outcome>, o: R.Outcome)
    ensures (log + [o])[..|log + [o]| - 1] == log && (log + [o])[|log + [o]| - 1] == o
  {
  }

  /** What each entry of the log does to the line. */
  lemma LineThen(log: seq<R.Outcome>, o: R.Outcome)
    requires R.Replay(log).Fifo? && R.Replay(log + [o]).Fifo?
    ensures o.Pushed? || o.Full? ==> LineOf(log + [o]) == P.Push(LineOf(log), Decoded(o.event))
    ensures o.Popped? ==> LineOf(log).queue != [] && LineOf(log).queue[0] == Decoded(o.event)
                          && LineOf(log + [o]) == P.Pop(LineOf(log))
    ensures o.Empty? ==> LineOf(log + [o]) == LineOf(log)
  {
    hide Decoded, R.PoppedEvents;
    LogThen(log, o);
    PoppedThen(log, o);
  }

  lemma PoppedThen(log: seq<R.Outcome>, o: R.Outcome)
    ensures R.PoppedEvents(log + [o]) == if o.Popped? then R.PoppedEvents(log) + [o.event] else R.PoppedEvents(log)
  {
    LogThen(log, o);
  }

  // ---------------------------------------------------------------- the machine

  datatype State = State(
    parsed: seq<Event>, held: seq<Event>, notifying: seq<Event>, acting: seq<Event>,
    main: R.Ring, notify: R.Ring, action: R.Ring,
    memory: seq<Twin>, table: Table,
    received: seq<Message>, processed: seq<P.Processed>)

  type Message = P.Message

  /** A load or store of one of the queues, or a step of a thread's own. */
  datatype Step =
    | Main(s: R.Step)
    | Notify(s: R.Step)
    | Action(s: R.Step)
    | Own(step: P.Step)

  /** The threads' own variables, without queues. */
  function Locals(c: State): P.State {
    var none := P.Line([], [], []);
    P.State(c.parsed, c.held, c.notifying, c.acting, none, none, none, c.memory, c.table, c.received, c.processed)
  }

  function WithLocals(c: State, l: P.State): State {
    c.(parsed := l.parsed, held := l.held, notifying := l.notifying, acting := l.acting,
       memory := l.memory, table := l.table, received := l.received, processed := l.processed)
  }

  /** A push call returned in this step. */
  predicate PushReturned(r: R.Ring, n: R.Ring) {
    |n.pushes| > |r.pushes|
  }

  /** A pop call returned an event in this step. */
  predicate PopReturned(r: R.Ring, n: R.Ring) {
    |n.pops| > |r.pops| && n.pops[|n.pops| - 1].Popped?
  }

  /** One step. The receiver pushes its parsed events in turn; the processor pops when it has nothing left to
      do, and pushes the batch to notify before the one for user actions. */
  ghost function Next(c: State, step: Step): State
    requires P.Shape(Locals(c))
  {
    match step
    case Main(s) =>
      if s.CallPush? && (c.parsed == [] || s.event != Encode(c.parsed[0])) then c
      else if s.LoadHead? && (c.held != [] || c.notifying != [] || c.acting != []) then c
      else
        var n := R.Next(c.main, s);
        c.(main := n,
           parsed := if PushReturned(c.main, n) && c.parsed != [] then c.parsed[1..] else c.parsed,
           held := if PopReturned(c.main, n) then [Decoded(n.pops[|n.pops| - 1].event)] else c.held)
    case Notify(s) =>
      if s.CallPush? && (c.notifying == [] || s.event != Encode(c.notifying[0])) then c
      else
        var n := R.Next(c.notify, s);
        c.(notify := n, notifying := if PushReturned(c.notify, n) then [] else c.notifying)
    case Action(s) =>
      if s.CallPush? && (c.notifying != [] || c.acting == [] || s.event != Encode(c.acting[0])) then c
      else
        var n := R.Next(c.action, s);
        c.(action := n, acting := if PushReturned(c.action, n) then [] else c.acting)
    case Own(step) =>
      if step.Receive? || step.Dispatch? || step.SetRule? || step.Delete?
      then WithLocals(c, P.Next(Locals(c), step)) else c
  }

  /** The pipeline's view of the whole. */
  function View(c: State): P.State {
    Locals(c).(main := LineOf(c.main.log), notify := LineOf(c.notify.log), action := LineOf(c.action.log))
  }

  /** The pipeline steps a step amounts to: one when a call takes effect and returns, or a thread makes a step
      of its own, and none otherwise. */
  ghost function Effect(c: State, step: Step): (ps: seq<P.Step>)
    requires P.Shape(Locals(c))
    ensures |ps| <= 1
  {
    match step
    case Main(s) =>
      var n := Next(c, step).main;
      if PushReturned(c.main, n) then [P.Enqueue] else if PopReturned(c.main, n) then [P.Take] else []
    case Notify(s) =>
      var n := Next(c, step).notify;
      if PushReturned(c.notify, n) then [P.PushNotify] else if PopReturned(c.notify, n) then [P.Send] else []
    case Action(s) =>
      var n := Next(c, step).action;
      if PushReturned(c.action, n) then [P.PushAction] else if PopReturned(c.action, n) then [P.Serve] else []
    case Own(step) =>
      if step.Receive? || step.Dispatch? || step.SetRule? || step.Delete? then [step] else []
  }

  // ---------------------------------------------------------------- the invariant

  ghost predicate RingOk(r: R.Ring) {
    R.Inv(r) && r.width == WIDTH
  }

  /** A push in progress is for the event its thread means to push; while a pop of the main queue is in
      progress the processor has nothing in its hands. */
  ghost predicate Busy(c: State) {
    && (!c.main.producer.PIdle? ==> c.parsed != [] && c.main.producer.event == Encode(c.parsed[0]))
    && (!c.main.consumer.CIdle? ==> c.held == [] && c.notifying == [] && c.acting == [])
    && (!c.notify.producer.PIdle? ==> c.notifying != [] && c.notify.producer.event == Encode(c.notifying[0]))
    && (!c.action.producer.PIdle? ==>
          c.notifying == [] && c.acting != [] && c.action.producer.event == Encode(c.acting[0]))
  }

  ghost predicate Inv(c: State) {
    && RingOk(c.main) && RingOk(c.notify) && RingOk(c.action)
    && Busy(c) && P.Shape(Locals(c)) && P.Inv(View(c))
  }

  ghost predicate Initial(c: State) {
    && R.Initial(c.main) && R.Initial(c.notify) && R.Initial(c.action)
    && c.main.width == WIDTH && c.notify.width == WIDTH && c.action.width == WIDTH
    && P.Initial(Locals(c))
  }

  // ---------------------------------------------------------------- one step of a ring

  /** How a ring's step shows: in the log, in the answers, and in what its threads are doing. */
  lemma RingStep(r: R.Ring, s: R.Step)
    requires RingOk(r)
    ensures var n := R.Next(r, s);
            && RingOk(n)
            && (PushReturned(r, n) ==>
                 && !r.producer.PIdle? && n.producer.PIdle? && !PopReturned(r, n)
                 && LineOf(n.log) == P.Push(LineOf(r.log), Decoded(r.producer.event)))
            && (PopReturned(r, n) ==>
                 && !r.consumer.CIdle? && n.consumer.CIdle? && LineOf(r.log).queue != []
                 && Decoded(n.pops[|n.pops| - 1].event) == LineOf(r.log).queue[0]
                 && LineOf(n.log) == P.Pop(LineOf(r.log)))
            && (!PushReturned(r, n) && !PopReturned(r, n) ==> LineOf(n.log) == LineOf(r.log))
  {
    hide R.Next, R.Inv, LineOf, Decoded, P.Push, P.Pop, R.Replay;
    var n := R.Next(r, s);
    R.StepKeepsInv(r, s);
    LogReplays(r);
    LogReplays(n);
    StepEntry(r, s);
    if |n.log| > |r.log| {
      LineThen(r.log, n.log[|r.log|]);
    }
  }

  /** A step enters at most one outcome in the log: a push's when it returns, a pop's event when it returns,
      or an Empty that is returned later. */
  lemma StepEntry(r: R.Ring, s: R.Step)
    ensures var n := R.Next(r, s);
            && n.width == r.width
            && if |n.log| == |r.log| then
                 n.log == r.log && n.pushes == r.pushes && (n.pops == r.pops || n.pops == r.pops + [R.Empty])
               else
                 && |n.log| == |r.log| + 1 && n.log == r.log + [n.log[|r.log|]]
                 && match n.log[|r.log|]
                    case Empty => n.pushes == r.pushes && n.pops == r.pops
                    case Popped(e) =>
                      && n.pushes == r.pushes && n.pops == r.pops + [R.Popped(e)]
                      && !r.consumer.CIdle? && n.consumer.CIdle?
                    case o =>
                      && n.pushes == r.pushes + [o] && n.pops == r.pops
                      && !r.producer.PIdle? && n.producer.PIdle? && o.event == r.producer.event
  {
    hide R.AllDone;
  }

  lemma LogReplays(r: R.Ring)
    requires R.Inv(r)
    ensures R.Replay(r.log).Fifo?
  {
  }

  /** What a ring's step leaves alone. */
  lemma RingThreads(r: R.Ring, s: R.Step)
    ensures var n := R.Next(r, s);
            && (!n.producer.PIdle? ==>
                 if r.producer.PIdle? then s.CallPush? && n.producer.event == s.event
                 else n.producer.event == r.producer.event)
            && (!n.consumer.CIdle? && r.consumer.CIdle? ==> s.LoadHead?)
            && (n.producer.PIdle? && !r.producer.PIdle? ==> PushReturned(r, n))
            && (PushReturned(r, n) ==> !r.producer.PIdle?)
  {
  }

  // ---------------------------------------------------------------- one step

  ghost function Apply(p: P.State, ps: seq<P.Step>): P.State
    requires P.Shape(p) && |ps| <= 1
  {
    if ps == [] then p else P.Next(p, ps[0])
  }

  ghost predicate Simulates(c: State, step: Step)
    requires Inv(c)
  {
    Inv(Next(c, step)) && View(Next(c, step)) == Apply(View(c), Effect(c, step))
  }

  /** What the pipeline's invariant says of the events in the threads' hands. */
  lemma InHand(p: P.State)
    requires P.Inv(p)
    ensures P.Shape(p) && (p.held != [] ==> p.notifying == [] && p.acting == [])
    ensures forall e :: e in p.parsed || e in p.notifying || e in p.acting ==> Consistent(e)
  {
  }

  lemma ShapeOfLocals(c: State)
    requires P.Shape(View(c))
    ensures P.Shape(Locals(c))
  {
  }

  lemma MainBusy(c: State, s: R.Step)
    requires Inv(c)
    ensures Busy(Next(c, Main(s)))
  {
    hide RingOk, R.Next, LineOf, Encode, Decoded, P.Inv, P.Shape;
    InHand(View(c));
    RingStep(c.main, s);
    RingThreads(c.main, s);
  }

  lemma MainSimulates(c: State, s: R.Step)
    requires Inv(c)
    ensures Simulates(c, Main(s))
  {
    hide RingOk, R.Next, LineOf, Encode, Decoded, P.Inv, P.Push, P.Pop;
    var n := Next(c, Main(s));
    MainBusy(c, s);
    InHand(View(c));
    RingStep(c.main, s);
    RingThreads(c.main, s);
    var m := R.Next(c.main, s);
    if PushReturned(c.main, m) && n.main == m {
      DecodeEncode(c.parsed[0]);
      assert View(n) == P.Next(View(c), P.Enqueue);
      P.StepKeeps(View(c), P.Enqueue);
    } else if PopReturned(c.main, m) && n.main == m {
      assert View(n) == P.Next(View(c), P.Take);
      P.StepKeeps(View(c), P.Take);
    }
    InHand(View(n));
    ShapeOfLocals(n);
  }

  lemma NotifyBusy(c: State, s: R.Step)
    requires Inv(c)
    ensures Busy(Next(c, Notify(s)))
  {
    hide RingOk, R.Next, LineOf, Encode, Decoded, P.Inv, P.Shape;
    InHand(View(c));
    RingStep(c.notify, s);
    RingThreads(c.notify, s);
  }

  lemma NotifySimulates(c: State, s: R.Step)
    requires Inv(c)
    ensures Simulates(c, Notify(s))
  {
    hide RingOk, R.Next, LineOf, Encode, Decoded, P.Inv, P.Push, P.Pop;
    var n := Next(c, Notify(s));
    NotifyBusy(c, s);
    InHand(View(c));
    RingStep(c.notify, s);
    RingThreads(c.notify, s);
    var m := R.Next(c.notify, s);
    if PushReturned(c.notify, m) && n.notify == m {
      DecodeEncode(c.notifying[0]);
      assert View(n) == P.Next(View(c), P.PushNotify);
      P.StepKeeps(View(c), P.PushNotify);
    } else if PopReturned(c.notify, m) && n.notify == m {
      assert View(n) == P.Next(View(c), P.Send);
      P.StepKeeps(View(c), P.Send);
    }
    InHand(View(n));
    ShapeOfLocals(n);
  }

  lemma ActionBusy(c: State, s: R.Step)
    requires Inv(c)
    ensures Busy(Next(c, Action(s)))
  {
    hide RingOk, R.Next, LineOf, Encode, Decoded, P.Inv, P.Shape;
    InHand(View(c));
    RingStep(c.action, s);
    RingThreads(c.action, s);
  }

  lemma ActionSimulates(c: State, s: R.Step)
    requires Inv(c)
    ensures Simulates(c, Action(s))
  {
    hide RingOk, R.Next, LineOf, Encode, Decoded, P.Inv, P.Push, P.Pop;
    var n := Next(c, Action(s));
    ActionBusy(c, s);
    InHand(View(c));
    RingStep(c.action, s);
    RingThreads(c.action, s);
    var m := R.Next(c.action, s);
    if PushReturned(c.action, m) && n.action == m {
      DecodeEncode(c.acting[0]);
      assert View(n) == P.Next(View(c), P.PushAction);
      P.StepKeeps(View(c), P.PushAction);
    } else if PopReturned(c.action, m) && n.action == m {
      assert View(n) == P.Next(View(c), P.Serve);
      P.StepKeeps(View(c), P.Serve);
    }
    InHand(View(n));
    ShapeOfLocals(n);
  }

  lemma OwnSimulates(c: State, step: P.Step)
    requires Inv(c)
    ensures Simulates(c, Own(step))
  {
    hide RingOk, LineOf, Encode, Decoded, P.Inv, P.BatchOf, P.Stored, Parse;
    InHand(View(c));
    if step.Receive? || step.Dispatch? || step.SetRule? || step.Delete? {
      var n := Next(c, Own(step));
      assert View(n) == P.Next(View(c), step);
      P.StepKeeps(View(c), step);
      InHand(View(n));
      ShapeOfLocals(n);
    }
  }

  lemma StepSimulates(c: State, step: Step)
    requires Inv(c)
    ensures Simulates(c, step)
  {
    hide Simulates, Inv;
    match step
    case Main(s) => MainSimulates(c, s);
    case Notify(s) => NotifySimulates(c, s);
    case Action(s) => ActionSimulates(c, s);
    case Own(p) => OwnSimulates(c, p);
  }

  lemma StepKeepsInv(c: State, step: Step)
    requires Inv(c)
    ensures Inv(Next(c, step)) && P.Shape(Locals(Next(c, step)))
  {
    hide Inv, Next, View, Apply, Effect, P.Inv, P.Shape;
    ViewOk(c);
    StepSimulates(c, step);
    ViewOk(Next(c, step));
  }

  // ---------------------------------------------------------------- runs

  lemma InitialHolds(c: State)
    requires Initial(c)
    ensures Inv(c) && P.Initial(View(c))
  {
    NothingLogged();
    P.InitialHolds(View(c));
  }

  lemma NothingLogged()
    ensures LineOf([]) == P.Line([], [], [])
  {
  }

  ghost function Run(c: State, steps: seq<Step>): (r: State)
    requires Inv(c)
    ensures Inv(r)
    decreases |steps|
  {
    if steps == [] then c
    else
      var before := Run(c, steps[..|steps| - 1]);
      StepSimulates(before, steps[|steps| - 1]);
      Next(before, steps[|steps| - 1])
  }

  /** The pipeline steps of a run, in order. */
  ghost function Effects(c: State, steps: seq<Step>): seq<P.Step>
    requires Inv(c)
    decreases |steps|
  {
    if steps == [] then []
    else Effects(c, steps[..|steps| - 1]) + Effect(Run(c, steps[..|steps| - 1]), steps[|steps| - 1])
  }

  lemma RunThen(p: P.State, ps: seq<P.Step>, more: seq<P.Step>)
    requires P.Inv(p) && |more| <= 1
    ensures P.Run(p, ps + more) == Apply(P.Run(p, ps), more)
  {
    hide P.Inv, P.Next;
    if more == [] {
      assert ps + more == ps;
    } else {
      assert (ps + more)[..|ps + more| - 1] == ps && (ps + more)[|ps + more| - 1] == more[0];
    }
  }

  /** Every interleaving of the threads' loads and stores, seen as pipeline states, is a run of the pipeline:
      the run of the steps that took effect, in the order in which they did. */
  lemma {:induction false} RunsRefine(c: State, steps: seq<Step>)
    requires Inv(c)
    ensures View(Run(c, steps)) == P.Run(View(c), Effects(c, steps))
    decreases |steps|
  {
    hide Inv, Next, View, Effect, P.Run, P.Inv;
    ViewOk(c);
    if steps == [] {
      assert P.Run(View(c), []) == View(c) by {
        NoSteps(View(c));
      }
    } else {
      var front, s := steps[..|steps| - 1], steps[|steps| - 1];
      RunsRefine(c, front);
      StepSimulates(Run(c, front), s);
      ViewOk(Run(c, front));
      RunThen(View(c), Effects(c, front), Effect(Run(c, front), s));
    }
  }

  lemma ViewOk(c: State)
    requires Inv(c)
    ensures P.Inv(View(c)) && P.Shape(Locals(c))
  {
  }

  lemma NoSteps(p: P.State)
    requires P.Inv(p)
    ensures P.Run(p, []) == p
  {
  }

  ghost function After(c: State, steps: seq<Step>): State
    requires Initial(c)
  {
    InitialHolds(c);
    Run(c, steps)
  }

  /** So conservation, for one, holds in every interleaving of single loads and stores: what each thread has
      parsed, offered, taken, dispatched and sent corresponds in order, except at a full queue. */
  lemma ConservedThroughout(c: State, steps: seq<Step>)
    requires Initial(c)
    ensures var r := View(After(c, steps));
            && P.Sound(r.processed)
            && P.Offers(r.main.offers) + r.parsed == P.AllParsed(r.received)
            && P.Accepted(r.main.offers) == P.Taken(r.processed) + r.held + r.main.queue
            && P.Offers(r.notify.offers) + r.notifying == P.BatchesOf(r.processed, NotifyUpwards)
            && P.Accepted(r.notify.offers) == r.notify.popped + r.notify.queue
            && P.Offers(r.action.offers) + r.acting == P.BatchesOf(r.processed, CallUserService)
            && P.Accepted(r.action.offers) == r.action.popped + r.action.queue
  {
    hide Inv, Run, View, Effects, P.Run, P.Sound, P.Offers, P.AllParsed, P.Accepted, P.Taken, P.BatchesOf, Initial;
    InitialHolds(c);
    RunsRefine(c, steps);
    Runs.Conservation(View(c), Effects(c, steps));
  }
}
