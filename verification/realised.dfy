/** The converse of the refinement in `Threads`: every run of the pipeline, whole queue operations and all, is
    what some interleaving of single loads and stores amounts to. */
module Realised {
  import opened Events
  import opened Dispatcher
  import opened Threads
  import R = RingProtocol
  import P = Pipeline
  import Runs

  datatype Place = InMain | InNotify | InAction

  function RingAt(c: State, w: Place): R.Ring {
    match w
    case InMain => c.main
    case InNotify => c.notify
    case InAction => c.action
  }

  function Put(c: State, w: Place, r: R.Ring): State {
    match w
    case InMain => c.(main := r)
    case InNotify => c.(notify := r)
    case InAction => c.(action := r)
  }

  function Lift(w: Place, s: R.Step): Step {
    match w
    case InMain => Main(s)
    case InNotify => Notify(s)
    case InAction => Action(s)
  }

  function LiftAll(w: Place, ss: seq<R.Step>): (r: seq<Step>)
    ensures |r| == |ss| && forall i :: 0 <= i < |ss| ==> r[i] == Lift(w, ss[i])
  {
    seq(|ss|, i requires 0 <= i < |ss| => Lift(w, ss[i]))
  }

  /** What the thread at the queue's front means to push. */
  function Front(c: State, w: Place): seq<Event> {
    match w
    case InMain => c.parsed
    case InNotify => c.notifying
    case InAction => if c.notifying == [] then c.acting else []
  }

  /** The processor pops when its hands are empty, the others at any time. */
  predicate MayPop(c: State, w: Place) {
    w.InMain? ==> c.held == [] && c.notifying == [] && c.acting == []
  }

  function PushOf(w: Place): P.Step {
    match w
    case InMain => P.Enqueue
    case InNotify => P.PushNotify
    case InAction => P.PushAction
  }

  function PopOf(w: Place): P.Step {
    match w
    case InMain => P.Take
    case InNotify => P.Send
    case InAction => P.Serve
  }

  ghost predicate Idle(r: R.Ring) {
    r.producer.PIdle? && r.consumer.CIdle?
  }

  ghost predicate AllIdle(c: State) {
    Idle(c.main) && Idle(c.notify) && Idle(c.action)
  }

  /** The step is one its thread takes. */
  predicate Allowed(c: State, w: Place, s: R.Step) {
    && (s.CallPush? ==> Front(c, w) != [] && s.event == Encode(Front(c, w)[0]))
    && (s.LoadHead? ==> MayPop(c, w))
  }

  // ---------------------------------------------------------------- one step of a queue

  lemma StepFields(c: State, w: Place, s: R.Step)
    requires P.Shape(Locals(c)) && Allowed(c, w, s)
    ensures var r, n, m := RingAt(c, w), Next(c, Lift(w, s)), R.Next(RingAt(c, w), s);
            && RingAt(n, w) == m
            && (forall o :: o != w ==> RingAt(n, o) == RingAt(c, o))
            && (!PushReturned(r, m) && !PopReturned(r, m) ==> n == Put(c, w, m))
            && Effect(c, Lift(w, s)) ==
                 if PushReturned(r, m) then [PushOf(w)] else if PopReturned(r, m) then [PopOf(w)] else []
  {
    hide R.Next, Encode, P.Shape, Decoded, P.Next, PushReturned, PopReturned;
  }

  /** A step of a queue, as the pipeline sees it. */
  lemma StepAt(c: State, w: Place, s: R.Step)
    requires Inv(c) && Allowed(c, w, s)
    ensures var r, n, m := RingAt(c, w), Next(c, Lift(w, s)), R.Next(RingAt(c, w), s);
            && Inv(n) && P.Shape(View(c)) && RingAt(n, w) == m
            && (forall o :: o != w ==> RingAt(n, o) == RingAt(c, o))
            && (!PushReturned(r, m) && !PopReturned(r, m) ==> n == Put(c, w, m) && View(n) == View(c))
            && (PushReturned(r, m) ==> View(n) == P.Next(View(c), PushOf(w)))
            && (!PushReturned(r, m) && PopReturned(r, m) ==> View(n) == P.Next(View(c), PopOf(w)))
  {
    hide Inv, R.Next, View, P.Next, P.Shape, Next, RingAt, Put, Effect, Lift, PushReturned, PopReturned, Allowed;
    ViewShape(c);
    StepFields(c, w, s);
    StepSimulates(c, Lift(w, s));
  }

  lemma ViewShape(c: State)
    requires Inv(c)
    ensures P.Shape(View(c)) && P.Shape(Locals(c))
  {
  }

  lemma RunOne(c: State, a: seq<Step>, s: Step)
    requires Inv(c)
    ensures P.Shape(Locals(Run(c, a))) && Run(c, a + [s]) == Next(Run(c, a), s) && Run(c, []) == c
  {
    hide Inv, Next;
    ViewOk(Run(c, a));
    assert (a + [s])[..|a + [s]| - 1] == a;
  }

  lemma {:induction false} RunInTwo(c: State, a: seq<Step>, b: seq<Step>)
    requires Inv(c)
    ensures Run(c, a + b) == Run(Run(c, a), b)
    decreases |b|
  {
    hide Next, Inv;
    if b == [] {
      assert a + b == a;
    } else {
      var n := |a + b| - 1;
      assert (a + b)[..n] == a + b[..|b| - 1];
      RunInTwo(c, a, b[..|b| - 1]);
    }
  }

  /** Copying words shows to nobody. */
  lemma {:induction false} CopyAt(c: State, w: Place, ss: seq<R.Step>)
    requires Inv(c) && forall s :: s in ss ==> s.StoreWord? || s.LoadWord?
    ensures var n := Run(c, LiftAll(w, ss));
            n == Put(c, w, R.Run(RingAt(c, w), ss)) && View(n) == View(c)
    decreases |ss|
  {
    hide Inv, R.Next, View, Run, Next, Put, Lift, RingAt;
    if ss == [] {
      RunOne(c, [], Own(P.Take));
      PutBack(c, w, RingAt(c, w), RingAt(c, w));
      assert LiftAll(w, ss) == [];
    } else {
      var front, s := ss[..|ss| - 1], ss[|ss| - 1];
      CopyAt(c, w, front);
      assert LiftAll(w, ss) == LiftAll(w, front) + [Lift(w, s)];
      RunOne(c, LiftAll(w, front), Lift(w, s));
      var before := Run(c, LiftAll(w, front));
      PutBack(c, w, R.Run(RingAt(c, w), front), R.Run(RingAt(c, w), ss));
      CopySilent(RingAt(before, w), s);
      StepAt(before, w, s);
    }
  }

  lemma PutBack(c: State, w: Place, r: R.Ring, q: R.Ring)
    ensures RingAt(Put(c, w, r), w) == r && Put(Put(c, w, r), w, q) == Put(c, w, q)
    ensures Put(c, w, RingAt(c, w)) == c
  {
  }

  lemma CopySilent(r: R.Ring, s: R.Step)
    requires s.StoreWord? || s.LoadWord?
    ensures !PushReturned(r, R.Next(r, s)) && !PopReturned(r, R.Next(r, s))
  {
  }

  // ---------------------------------------------------------------- one whole call

  lemma RingInv(c: State, w: Place)
    requires Inv(c)
    ensures R.Inv(RingAt(c, w)) && RingAt(c, w).width == WIDTH
  {
    hide R.Inv;
  }

  lemma {:induction false} WordSteps(n: nat)
    ensures forall s :: s in R.StoreWords(n) ==> s.StoreWord?
    ensures forall s :: s in R.LoadWords(n) ==> s.LoadWord?
  {
    if n > 0 {
      WordSteps(n - 1);
    }
  }

  /** How a push begins, on the ring. */
  lemma Begun(r: R.Ring, event: R.Words)
    requires R.Inv(r) && r.producer.PIdle? && |event| == r.width
    ensures var m := R.Next(r, R.CallPush(event));
            var n := R.Next(m, R.LoadTail);
            && !PushReturned(r, m) && !PopReturned(r, m) && m.producer.PCheck? && m.consumer == r.consumer
            && n.consumer == r.consumer
            && (PushReturned(m, n) ==> n.producer.PIdle?)
            && (!PushReturned(m, n) ==> !PopReturned(m, n) && n.producer.PCopy? && n.producer.done == {})
  {
    hide R.Inv;
  }

  lemma Ended(r: R.Ring)
    requires r.producer.PCopy? && R.AllDone(r.producer.done, r.width)
    ensures var n := R.Next(r, R.StoreHead); PushReturned(r, n) && n.producer.PIdle? && n.consumer == r.consumer
  {
  }

  lemma Copied(c: State, w: Place)
    requires Inv(c) && RingAt(c, w).producer.PCopy? && RingAt(c, w).producer.done == {}
    ensures var n := Run(c, LiftAll(w, R.StoreWords(WIDTH)));
            && Inv(n) && View(n) == View(c) && n == Put(c, w, RingAt(n, w))
            && RingAt(n, w).producer.PCopy? && RingAt(n, w).consumer == RingAt(c, w).consumer
            && R.AllDone(RingAt(n, w).producer.done, RingAt(n, w).width)
  {
    hide Inv, R.Inv, R.Next, R.Run, View, Run, Next, Lift, RingAt, Put;
    RingInv(c, w);
    R.WordsStored(RingAt(c, w), WIDTH);
    WordSteps(WIDTH);
    CopyAt(c, w, R.StoreWords(WIDTH));
    PutBack(c, w, R.Run(RingAt(c, w), R.StoreWords(WIDTH)), RingAt(c, w));
  }

  lemma PutOthers(c: State, w: Place, r: R.Ring)
    ensures forall o :: o != w ==> RingAt(Put(c, w, r), o) == RingAt(c, o)
  {
  }

  /** Everything but the queue at `w` rests, and it does too. */
  lemma StillIdle(c: State, n: State, w: Place)
    requires AllIdle(c) && Idle(RingAt(n, w)) && forall o :: o != w ==> RingAt(n, o) == RingAt(c, o)
    ensures AllIdle(n)
  {
    assert RingAt(n, InMain) == n.main && RingAt(n, InNotify) == n.notify && RingAt(n, InAction) == n.action;
    assert RingAt(c, InMain) == c.main && RingAt(c, InNotify) == c.notify && RingAt(c, InAction) == c.action;
  }

  lemma IdleAt(c: State, w: Place)
    requires AllIdle(c)
    ensures Idle(RingAt(c, w))
  {
  }

  lemma PushRealised(c: State, w: Place) returns (steps: seq<Step>)
    requires Inv(c) && AllIdle(c) && Front(c, w) != []
    ensures P.Shape(View(c)) && View(Run(c, steps)) == P.Next(View(c), PushOf(w)) && AllIdle(Run(c, steps))
  {
    hide Inv, R.Inv, R.Next, R.Run, View, P.Next, P.Shape, Run, Next, Lift, RingAt, Put, Encode, AllIdle, Front, MayPop,
         PushReturned, PopReturned;
    var event := Encode(Front(c, w)[0]);
    RingInv(c, w);
    IdleAt(c, w);
    Begun(RingAt(c, w), event);
    StepAt(c, w, R.CallPush(event));
    RunOne(c, [], Lift(w, R.CallPush(event)));
    assert [] + [Lift(w, R.CallPush(event))] == [Lift(w, R.CallPush(event))];
    var c1 := Next(c, Lift(w, R.CallPush(event)));
    StepAt(c1, w, R.LoadTail);
    RunOne(c, [Lift(w, R.CallPush(event))], Lift(w, R.LoadTail));
    steps := [Lift(w, R.CallPush(event))] + [Lift(w, R.LoadTail)];
    var c2 := Run(c, steps);
    if !PushReturned(RingAt(c1, w), RingAt(c2, w)) {
      Copied(c2, w);
      RunInTwo(c, steps, LiftAll(w, R.StoreWords(WIDTH)));
      var c3 := Run(c2, LiftAll(w, R.StoreWords(WIDTH)));
      PutOthers(c2, w, RingAt(c3, w));
      Ended(RingAt(c3, w));
      StepAt(c3, w, R.StoreHead);
      RunOne(c, steps + LiftAll(w, R.StoreWords(WIDTH)), Lift(w, R.StoreHead));
      steps := steps + LiftAll(w, R.StoreWords(WIDTH)) + [Lift(w, R.StoreHead)];
    }
    StillIdle(c, Run(c, steps), w);
  }

  function LineAt(p: P.State, w: Place): P.Line {
    match w
    case InMain => p.main
    case InNotify => p.notify
    case InAction => p.action
  }

  lemma SomethingQueued(c: State, w: Place)
    requires Inv(c) && LineAt(View(c), w).queue != []
    ensures RingAt(c, w).popped < |RingAt(c, w).accepted|
  {
    hide P.Inv, Decoded, R.ProducerOk, R.ConsumerOk, R.Replay, R.PoppedEvents, OffersOf, P.Shape, Busy;
    var r := RingAt(c, w);
    assert R.Inv(r);
    assert LineAt(View(c), w) == LineOf(r.log);
  }

  lemma BegunPop(r: R.Ring)
    requires R.Inv(r) && r.consumer.CIdle? && r.popped < |r.accepted|
    ensures var m := R.Next(r, R.LoadHead);
            var n := R.Next(m, R.CompareTail);
            && !PushReturned(r, m) && !PopReturned(r, m) && m.consumer.CCheck? && m.producer == r.producer
            && n.producer == r.producer && !PushReturned(m, n) && !PopReturned(m, n)
            && n.consumer.CCopy? && n.consumer.done == {}
  {
    hide R.Slots, R.Replay;
    R.Places(r);
    R.SlotsDiffer(r.popped, |r.accepted|);
  }

  lemma EndedPop(r: R.Ring)
    requires r.consumer.CCopy? && R.AllDone(r.consumer.done, r.width)
    ensures var n := R.Next(r, R.StoreTail);
            !PushReturned(r, n) && PopReturned(r, n) && n.consumer.CIdle? && n.producer == r.producer
  {
  }

  lemma CopiedOut(c: State, w: Place)
    requires Inv(c) && RingAt(c, w).consumer.CCopy? && RingAt(c, w).consumer.done == {}
    ensures var n := Run(c, LiftAll(w, R.LoadWords(WIDTH)));
            && Inv(n) && View(n) == View(c) && n == Put(c, w, RingAt(n, w))
            && RingAt(n, w).consumer.CCopy? && RingAt(n, w).producer == RingAt(c, w).producer
            && R.AllDone(RingAt(n, w).consumer.done, RingAt(n, w).width)
  {
    hide Inv, R.Inv, R.Next, R.Run, View, Run, Next, Lift, RingAt, Put;
    RingInv(c, w);
    R.WordsLoaded(RingAt(c, w), WIDTH);
    WordSteps(WIDTH);
    CopyAt(c, w, R.LoadWords(WIDTH));
    PutBack(c, w, R.Run(RingAt(c, w), R.LoadWords(WIDTH)), RingAt(c, w));
  }

  lemma PopRealised(c: State, w: Place) returns (steps: seq<Step>)
    requires Inv(c) && AllIdle(c) && MayPop(c, w) && LineAt(View(c), w).queue != []
    ensures P.Shape(View(c)) && View(Run(c, steps)) == P.Next(View(c), PopOf(w)) && AllIdle(Run(c, steps))
  {
    hide Inv, R.Inv, R.Next, R.Run, View, P.Next, P.Shape, Run, Next, Lift, RingAt, Put, Encode, AllIdle, Front, MayPop,
         PushReturned, PopReturned;
    RingInv(c, w);
    IdleAt(c, w);
    SomethingQueued(c, w);
    BegunPop(RingAt(c, w));
    StepAt(c, w, R.LoadHead);
    RunOne(c, [], Lift(w, R.LoadHead));
    assert [] + [Lift(w, R.LoadHead)] == [Lift(w, R.LoadHead)];
    var c1 := Next(c, Lift(w, R.LoadHead));
    StepAt(c1, w, R.CompareTail);
    RunOne(c, [Lift(w, R.LoadHead)], Lift(w, R.CompareTail));
    steps := [Lift(w, R.LoadHead)] + [Lift(w, R.CompareTail)];
    var c2 := Run(c, steps);
    CopiedOut(c2, w);
    RunInTwo(c, steps, LiftAll(w, R.LoadWords(WIDTH)));
    var c3 := Run(c2, LiftAll(w, R.LoadWords(WIDTH)));
    PutOthers(c2, w, RingAt(c3, w));
    EndedPop(RingAt(c3, w));
    StepAt(c3, w, R.StoreTail);
    RunOne(c, steps + LiftAll(w, R.LoadWords(WIDTH)), Lift(w, R.StoreTail));
    steps := steps + LiftAll(w, R.LoadWords(WIDTH)) + [Lift(w, R.StoreTail)];
    StillIdle(c, Run(c, steps), w);
  }

  // ---------------------------------------------------------------- main result

  lemma OwnRealised(c: State, step: P.Step)
    requires Inv(c) && AllIdle(c) && (step.Receive? || step.Dispatch? || step.SetRule? || step.Delete?)
    ensures P.Shape(View(c)) && P.Shape(Locals(c))
    ensures View(Next(c, Own(step))) == P.Next(View(c), step) && AllIdle(Next(c, Own(step)))
  {
    hide Inv, View, P.Next, P.Shape;
    ViewShape(c);
    StepSimulates(c, Own(step));
  }

  /** A pipeline step that its thread is not ready for changes nothing. */
  lemma NotReady(p: P.State, c: State, step: P.Step)
    requires P.Shape(p) && p == View(c)
    ensures step == P.Enqueue && Front(c, InMain) == [] ==> P.Next(p, step) == p
    ensures step == P.PushNotify && Front(c, InNotify) == [] ==> P.Next(p, step) == p
    ensures step == P.PushAction && Front(c, InAction) == [] ==> P.Next(p, step) == p
    ensures step == P.Take && (!MayPop(c, InMain) || p.main.queue == []) ==> P.Next(p, step) == p
    ensures step == P.Send && p.notify.queue == [] ==> P.Next(p, step) == p
    ensures step == P.Serve && p.action.queue == [] ==> P.Next(p, step) == p
  {
    hide LineOf;
  }

  /** Every step of the pipeline is made by whole calls, from rest to rest. */
  lemma StepRealised(c: State, step: P.Step) returns (steps: seq<Step>)
    requires Inv(c) && AllIdle(c)
    ensures P.Shape(View(c)) && View(Run(c, steps)) == P.Next(View(c), step) && AllIdle(Run(c, steps))
  {
    hide Inv, View, P.Next, P.Shape, Run, Next, Front, MayPop, AllIdle;
    ViewShape(c);
    NotReady(View(c), c, step);
    steps := [];
    RunOne(c, [], Own(step));
    assert [] + [Own(step)] == [Own(step)];
    match step {
      case Enqueue => if Front(c, InMain) != [] { steps := PushRealised(c, InMain); }
      case PushNotify => if Front(c, InNotify) != [] { steps := PushRealised(c, InNotify); }
      case PushAction => if Front(c, InAction) != [] { steps := PushRealised(c, InAction); }
      case Take =>
        if MayPop(c, InMain) && View(c).main.queue != [] {
          steps := PopRealised(c, InMain);
        }
      case Send =>
        if View(c).notify.queue != [] {
          AnyPop(c);
          steps := PopRealised(c, InNotify);
        }
      case Serve =>
        if View(c).action.queue != [] {
          AnyPop(c);
          steps := PopRealised(c, InAction);
        }
      case _ =>
        steps := [Own(step)];
        OwnRealised(c, step);
    }
  }

  lemma AnyPop(c: State)
    ensures MayPop(c, InNotify) && MayPop(c, InAction)
  {
  }

  lemma {:induction false} RestToRest(c: State, ps: seq<P.Step>) returns (steps: seq<Step>)
    requires Inv(c) && AllIdle(c)
    ensures P.Inv(View(c)) && View(Run(c, steps)) == P.Run(View(c), ps) && AllIdle(Run(c, steps))
    decreases |ps|
  {
    hide Inv, View, P.Next, P.Inv, Run, Next, AllIdle;
    ViewOk(c);
    if ps == [] {
      steps := [];
      RunOne(c, [], Own(P.Take));
    } else {
      var n := |ps| - 1;
      steps := RestToRest(c, ps[..n]);
      var more := StepRealised(Run(c, steps), ps[n]);
      RunInTwo(c, steps, more);
      steps := steps + more;
    }
  }

  /** For every run of the pipeline there is an interleaving of single loads and stores that amounts to it. */
  lemma RunsRealised(c: State, ps: seq<P.Step>) returns (steps: seq<Step>)
    requires Initial(c)
    ensures P.Initial(View(c)) && View(After(c, steps)) == Runs.After(View(c), ps)
  {
    hide Inv, View, Run, P.Run, P.Inv;
    InitialHolds(c);
    RestAtFirst(c);
    steps := RestToRest(c, ps);
  }

  lemma RestAtFirst(c: State)
    requires Initial(c)
    ensures AllIdle(c)
  {
  }
}
