/** push_event and pop_event running at the same time, one producer thread and one consumer thread, one
    load or store at a time. An event is `width` words; each word of a slot is copied by a step of its
    own, in any order. Loads and stores are sequentially consistent, which is an assumption here: the
    queue's fields are plain. */
module RingProtocol {
  import opened Events

  const CAPACITY: nat := QUEUE_SIZE - 1

  type Words = seq<nat>

  datatype Producer =
    | PIdle
    | PCheck(event: Words, next: nat)                  // q->head has been read
    | PCopy(event: Words, next: nat, done: set<nat>)   // not full: the slot is being filled

  datatype Consumer =
    | CIdle
    | CCheck(seen: nat, empty: bool)                   // q->head has been read; was the queue empty then?
    | CCopy(copy: Words, done: set<nat>)               // not empty: the slot is being read

  datatype Outcome = Pushed(event: Words) | Full(event: Words) | Popped(event: Words) | Empty

  /** The shared fields, the two threads, and the history: the events accepted and how many of them were
      popped; the log, in which every call is entered at the moment it takes effect; and, for each
      thread, the calls it has begun and what they returned when they ended. */
  datatype Ring = Ring(
    width: nat, slots: seq<Words>, head: nat, tail: nat,
    producer: Producer, consumer: Consumer,
    accepted: seq<Words>, popped: nat, log: seq<Outcome>,
    pushCalls: seq<Words>, pushes: seq<Outcome>, popCalls: nat, pops: seq<Outcome>)

  datatype Step =
    | CallPush(event: Words)
    | LoadTail
    | StoreWord(w: nat)
    | StoreHead
    | LoadHead
    | CompareTail
    | LoadWord(w: nat)
    | StoreTail

  /** One step; a step that its thread is not about to take changes nothing. */
  function Next(r: Ring, s: Step): Ring {
    match s
    case CallPush(event) =>
      if r.producer.PIdle? && |event| == r.width
      then r.(producer := PCheck(event, (r.head + 1) % QUEUE_SIZE), pushCalls := r.pushCalls + [event]) else r
    case LoadTail =>
      if !r.producer.PCheck? then r
      else if r.producer.next == r.tail
      then r.(producer := PIdle, log := r.log + [Full(r.producer.event)], pushes := r.pushes + [Full(r.producer.event)])
      else r.(producer := PCopy(r.producer.event, r.producer.next, {}))
    case StoreWord(w) =>
      if r.producer.PCopy? && w < |r.producer.event| && w !in r.producer.done
         && r.head < |r.slots| && w < |r.slots[r.head]|
      then r.(slots := r.slots[r.head := r.slots[r.head][w := r.producer.event[w]]],
              producer := r.producer.(done := r.producer.done + {w}))
      else r
    case StoreHead =>
      if r.producer.PCopy? && AllDone(r.producer.done, r.width)
      then r.(head := r.producer.next, producer := PIdle,
              accepted := r.accepted + [r.producer.event], log := r.log + [Pushed(r.producer.event)],
              pushes := r.pushes + [Pushed(r.producer.event)])
      else r
    case LoadHead =>
      // The queue was empty at this load exactly when it shows the consumer's own tail.
      if !r.consumer.CIdle? then r
      else r.(consumer := CCheck(r.head, r.head == r.tail), popCalls := r.popCalls + 1,
              log := if r.head == r.tail then r.log + [Empty] else r.log)
    case CompareTail =>
      if !r.consumer.CCheck? then r
      else if r.consumer.seen == r.tail then r.(consumer := CIdle, pops := r.pops + [Empty])
      else r.(consumer := CCopy(Blank(r.width), {}))
    case LoadWord(w) =>
      if r.consumer.CCopy? && w < |r.consumer.copy| && w !in r.consumer.done
         && r.tail < |r.slots| && w < |r.slots[r.tail]|
      then r.(consumer := CCopy(r.consumer.copy[w := r.slots[r.tail][w]], r.consumer.done + {w}))
      else r
    case StoreTail =>
      if r.consumer.CCopy? && AllDone(r.consumer.done, r.width)
      then r.(tail := (r.tail + 1) % QUEUE_SIZE, consumer := CIdle, popped := r.popped + 1,
              log := r.log + [Popped(r.consumer.copy)], pops := r.pops + [Popped(r.consumer.copy)])
      else r
  }

  predicate AllDone(done: set<nat>, width: nat) {
    forall w :: 0 <= w < width ==> w in done
  }

  function Blank(width: nat): (s: Words)
    ensures |s| == width
  {
    seq(width, _ => 0)
  }

  function Run(r: Ring, steps: seq<Step>): Ring
    decreases |steps|
  {
    if steps == [] then r else Next(Run(r, steps[..|steps| - 1]), steps[|steps| - 1])
  }

  /** init_queue, whatever the slots hold. */
  ghost predicate Initial(r: Ring) {
    && |r.slots| == QUEUE_SIZE && (forall i :: 0 <= i < QUEUE_SIZE ==> |r.slots[i]| == r.width)
    && r.head == 0 && r.tail == 0 && r.producer == PIdle && r.consumer == CIdle
    && r.accepted == [] && r.popped == 0 && r.log == []
    && r.pushCalls == [] && r.pushes == [] && r.popCalls == 0 && r.pops == []
  }

  // ---------------------------------------------------------------- the invariant

  ghost predicate Slots(r: Ring) {
    && |r.slots| == QUEUE_SIZE && (forall i :: 0 <= i < QUEUE_SIZE ==> |r.slots[i]| == r.width)
    && r.popped <= |r.accepted| <= r.popped + CAPACITY
    && r.head == |r.accepted| % QUEUE_SIZE && r.tail == r.popped % QUEUE_SIZE
    && (forall k :: r.popped <= k < |r.accepted| ==> r.slots[k % QUEUE_SIZE] == r.accepted[k])
    && (forall k :: 0 <= k < |r.accepted| ==> |r.accepted[k]| == r.width)
  }

  ghost predicate ProducerOk(r: Ring) {
    match r.producer
    case PIdle => true
    case PCheck(event, next) => |event| == r.width && next == (|r.accepted| + 1) % QUEUE_SIZE
    case PCopy(event, next, done) =>
      && |event| == r.width && next == (|r.accepted| + 1) % QUEUE_SIZE
      && |r.accepted| < r.popped + CAPACITY
      && r.head < |r.slots| && |r.slots[r.head]| == r.width
      && forall w :: w in done ==> w < r.width && r.slots[r.head][w] == event[w]
  }

  ghost predicate ConsumerOk(r: Ring) {
    match r.consumer
    case CIdle => true
    case CCheck(seen, empty) => (seen == r.tail <==> empty) && (!empty ==> r.popped < |r.accepted|)
    case CCopy(copy, done) =>
      && |copy| == r.width && r.popped < |r.accepted| && |r.accepted[r.popped]| == r.width
      && forall w :: w in done ==> w < r.width && copy[w] == r.accepted[r.popped][w]
  }

  /** The queue a FIFO would hold. */
  function Queued(r: Ring): seq<Words>
    requires r.popped <= |r.accepted|
  {
    r.accepted[r.popped..]
  }

  // A bounded FIFO, against which the log is replayed.

  datatype Replayed = Fifo(queue: seq<Words>) | Wrong

  function Replay(log: seq<Outcome>): Replayed
    decreases |log|
  {
    if log == [] then Fifo([])
    else match Replay(log[..|log| - 1])
      case Wrong => Wrong
      case Fifo(q) =>
        match log[|log| - 1]
        case Pushed(e) => if |q| < CAPACITY then Fifo(q + [e]) else Wrong
        case Full(_) => if |q| == CAPACITY then Fifo(q) else Wrong
        case Popped(e) => if q != [] && q[0] == e then Fifo(q[1..]) else Wrong
        case Empty => if q == [] then Fifo(q) else Wrong
  }

  ghost predicate Inv(r: Ring) {
    && Slots(r) && ProducerOk(r) && ConsumerOk(r)
    && Replay(r.log) == Fifo(Queued(r))
  }

  lemma ReplayThen(log: seq<Outcome>, o: Outcome)
    ensures (log + [o])[..|log + [o]| - 1] == log && (log + [o])[|log + [o]| - 1] == o
  {
  }

  /** Two positions of the stream less than a ring apart lie in different slots. */
  lemma SlotsDiffer(i: nat, j: nat)
    requires i < j < i + QUEUE_SIZE
    ensures i % QUEUE_SIZE != j % QUEUE_SIZE
  {
  }

  lemma FullExactly(accepted: nat, popped: nat)
    requires popped <= accepted <= popped + CAPACITY
    ensures (accepted + 1) % QUEUE_SIZE == popped % QUEUE_SIZE <==> accepted == popped + CAPACITY
  {
    if accepted < popped + CAPACITY {
      SlotsDiffer(popped, accepted + 1);
    }
  }

  lemma StepKeepsInv(r: Ring, s: Step)
    requires Inv(r)
    ensures Inv(Next(r, s))
  {
    hide Next, Inv;
    match s
    case CallPush(event) => CallPushKeeps(r, event);
    case LoadTail => LoadTailKeeps(r);
    case StoreWord(w) => StoreWordKeeps(r, w);
    case StoreHead => StoreHeadKeeps(r);
    case LoadHead => LoadHeadKeeps(r);
    case CompareTail => CompareTailKeeps(r);
    case LoadWord(w) => LoadWordKeeps(r, w);
    case StoreTail => StoreTailKeeps(r);
  }

  // What a step leaves alone stays as it was.

  lemma SlotsSame(r: Ring, n: Ring)
    requires Slots(r) && n.width == r.width && n.slots == r.slots && n.head == r.head && n.tail == r.tail
    requires n.accepted == r.accepted && n.popped == r.popped
    ensures Slots(n)
  {
  }

  lemma ProducerSame(r: Ring, n: Ring)
    requires ProducerOk(r) && n.width == r.width && n.slots == r.slots && n.head == r.head
    requires n.producer == r.producer && n.accepted == r.accepted && n.popped >= r.popped
    ensures ProducerOk(n)
  {
  }

  lemma ConsumerSame(r: Ring, n: Ring)
    requires ConsumerOk(r) && n.width == r.width && n.tail == r.tail && n.consumer == r.consumer
    requires r.accepted <= n.accepted && n.popped == r.popped
    ensures ConsumerOk(n)
  {
  }

  /** Where the threads work. */
  lemma Places(r: Ring)
    requires Slots(r)
    ensures |r.slots| == QUEUE_SIZE && r.head < QUEUE_SIZE && r.tail < QUEUE_SIZE
    ensures r.head == |r.accepted| % QUEUE_SIZE && r.tail == r.popped % QUEUE_SIZE
    ensures |r.slots[r.head]| == r.width && |r.slots[r.tail]| == r.width
    ensures r.popped <= |r.accepted| <= r.popped + CAPACITY
    ensures r.popped < |r.accepted| ==> r.slots[r.tail] == r.accepted[r.popped]
  {
  }

  lemma NextSlot(n: nat)
    ensures (n % QUEUE_SIZE + 1) % QUEUE_SIZE == (n + 1) % QUEUE_SIZE
  {
  }

  lemma CallPushKeeps(r: Ring, event: Words)
    requires Inv(r)
    ensures Inv(Next(r, CallPush(event)))
  {
    hide Slots, ConsumerOk, Replay;
    var n := Next(r, CallPush(event));
    Places(r);
    NextSlot(|r.accepted|);
    SlotsSame(r, n);
    ConsumerSame(r, n);
  }

  lemma CompareTailKeeps(r: Ring)
    requires Inv(r)
    ensures Inv(Next(r, CompareTail))
  {
    hide Slots, ProducerOk, Replay;
    var n := Next(r, CompareTail);
    Places(r);
    SlotsSame(r, n);
    ProducerSame(r, n);
    if r.popped < |r.accepted| {
      AcceptedWidth(r, r.popped);
    }
  }

  lemma AcceptedWidth(r: Ring, k: nat)
    requires Slots(r) && k < |r.accepted|
    ensures |r.accepted[k]| == r.width
  {
  }

  /** Full is answered exactly when CAPACITY events are queued at the load. */
  lemma LoadTailKeeps(r: Ring)
    requires Inv(r)
    ensures Inv(Next(r, LoadTail))
  {
    hide Slots, ConsumerOk;
    var n := Next(r, LoadTail);
    Places(r);
    SlotsSame(r, n);
    ConsumerSame(r, n);
    if r.producer.PCheck? {
      FullExactly(|r.accepted|, r.popped);
      if r.producer.next == r.tail {
        ReplayThen(r.log, Full(r.producer.event));
      }
    }
  }

  lemma StoreWordSlots(r: Ring, w: nat)
    requires Inv(r)
    ensures Slots(Next(r, StoreWord(w)))
  {
    hide ConsumerOk, Replay;
    forall k | r.popped <= k < |r.accepted| && r.producer.PCopy?
      ensures k % QUEUE_SIZE != r.head
    {
      SlotsDiffer(k, |r.accepted|);
    }
  }

  lemma StoreWordKeeps(r: Ring, w: nat)
    requires Inv(r)
    ensures Inv(Next(r, StoreWord(w)))
  {
    hide Slots, ConsumerOk, Replay;
    StoreWordSlots(r, w);
    ConsumerSame(r, Next(r, StoreWord(w)));
  }

  lemma StoreHeadSlots(r: Ring)
    requires Inv(r) && r.producer.PCopy? && AllDone(r.producer.done, r.width)
    ensures r.slots[r.head] == r.producer.event && Slots(Next(r, StoreHead))
  {
    hide ConsumerOk, Replay;
    assert r.slots[r.head] == r.producer.event;
  }

  lemma StoreHeadKeeps(r: Ring)
    requires Inv(r)
    ensures Inv(Next(r, StoreHead))
  {
    hide Slots, ConsumerOk;
    var n := Next(r, StoreHead);
    Places(r);
    ConsumerSame(r, n);
    if r.producer.PCopy? && AllDone(r.producer.done, r.width) {
      var e := r.producer.event;
      StoreHeadSlots(r);
      ReplayThen(r.log, Pushed(e));
      assert (r.accepted + [e])[r.popped..] == Queued(r) + [e];
    }
  }

  lemma LoadHeadKeeps(r: Ring)
    requires Inv(r)
    ensures Inv(Next(r, LoadHead))
  {
    hide Slots, ProducerOk;
    var n := Next(r, LoadHead);
    Places(r);
    SlotsSame(r, n);
    ProducerSame(r, n);
    ReplayThen(r.log, Empty);
    if r.popped < |r.accepted| {
      SlotsDiffer(r.popped, |r.accepted|);
    }
  }

  lemma LoadWordKeeps(r: Ring, w: nat)
    requires Inv(r)
    ensures Inv(Next(r, LoadWord(w)))
  {
    hide Slots, ProducerOk, Replay;
    var n := Next(r, LoadWord(w));
    Places(r);
    SlotsSame(r, n);
    ProducerSame(r, n);
  }

  lemma StoreTailSlots(r: Ring)
    requires Slots(r) && r.popped < |r.accepted|
    ensures Slots(r.(tail := (r.tail + 1) % QUEUE_SIZE, popped := r.popped + 1))
  {
    NextSlot(r.popped);
  }

  lemma StoreTailKeeps(r: Ring)
    requires Inv(r)
    ensures Inv(Next(r, StoreTail))
  {
    hide Slots, ProducerOk;
    var n := Next(r, StoreTail);
    ProducerSame(r, n);
    Places(r);
    if r.consumer.CCopy? && AllDone(r.consumer.done, r.width) {
      var e := r.consumer.copy;
      StoreTailSlots(r);
      SlotsSame(r.(tail := (r.tail + 1) % QUEUE_SIZE, popped := r.popped + 1), n);
      assert e == r.accepted[r.popped];
      ReplayThen(r.log, Popped(e));
      assert Queued(r)[1..] == r.accepted[r.popped + 1..];
    }
  }

  lemma {:induction false} RunKeepsInv(r: Ring, steps: seq<Step>)
    requires Initial(r)
    ensures Inv(Run(r, steps))
    decreases |steps|
  {
    if steps == [] {
      assert Replay([]) == Fifo([]);
    } else {
      RunKeepsInv(r, steps[..|steps| - 1]);
      StepKeepsInv(Run(r, steps[..|steps| - 1]), steps[|steps| - 1]);
    }
  }

  // ---------------------------------------------------------------- calls and their answers

  function PushOutcomes(log: seq<Outcome>): seq<Outcome>
    decreases |log|
  {
    if log == [] then []
    else
      var o := log[|log| - 1];
      PushOutcomes(log[..|log| - 1]) + (if o.Pushed? || o.Full? then [o] else [])
  }

  function PopOutcomes(log: seq<Outcome>): seq<Outcome>
    decreases |log|
  {
    if log == [] then []
    else
      var o := log[|log| - 1];
      PopOutcomes(log[..|log| - 1]) + (if o.Popped? || o.Empty? then [o] else [])
  }

  function EventsOf(answers: seq<Outcome>): seq<Words>
    decreases |answers|
  {
    if answers == [] then []
    else
      var o := answers[|answers| - 1];
      EventsOf(answers[..|answers| - 1]) + (if o.Empty? then [] else [o.event])
  }

  /** What push_event returned is what the log says of the producer, and every call it began was for the
      event it answered, or is still running. What pop_event returned is what the log says of the
      consumer, except for an Empty it has yet to return; every call it began has answered, or is
      still running. */
  ghost predicate Answered(r: Ring) {
    && PushOutcomes(r.log) == r.pushes
    && r.pushCalls == EventsOf(r.pushes) + (if r.producer.PIdle? then [] else [r.producer.event])
    && PopOutcomes(r.log) == r.pops + (if r.consumer.CCheck? && r.consumer.empty then [Empty] else [])
    && r.popCalls == |r.pops| + (if r.consumer.CIdle? then 0 else 1)
  }

  lemma OutcomeThen(log: seq<Outcome>, o: Outcome)
    ensures PushOutcomes(log + [o]) == PushOutcomes(log) + (if o.Pushed? || o.Full? then [o] else [])
    ensures PopOutcomes(log + [o]) == PopOutcomes(log) + (if o.Popped? || o.Empty? then [o] else [])
    ensures EventsOf(log + [o]) == EventsOf(log) + (if o.Empty? then [] else [o.event])
  {
    ReplayThen(log, o);
  }

  lemma ProducerAnswers(r: Ring, s: Step)
    requires Answered(r) && ProducerOk(r) && (s.CallPush? || s.LoadTail? || s.StoreWord? || s.StoreHead?)
    ensures Answered(Next(r, s))
  {
    hide PushOutcomes, PopOutcomes, EventsOf, AllDone;
    if r.producer.PCheck? || r.producer.PCopy? {
      var e := r.producer.event;
      OutcomeThen(r.log, Full(e));
      OutcomeThen(r.log, Pushed(e));
      OutcomeThen(r.pushes, Full(e));
      OutcomeThen(r.pushes, Pushed(e));
    }
  }

  lemma ConsumerAnswers(r: Ring, s: Step)
    requires Answered(r) && ConsumerOk(r) && (s.LoadHead? || s.CompareTail? || s.LoadWord? || s.StoreTail?)
    ensures Answered(Next(r, s))
  {
    hide PushOutcomes, PopOutcomes, EventsOf, AllDone;
    OutcomeThen(r.log, Empty);
    if r.consumer.CCopy? {
      OutcomeThen(r.log, Popped(r.consumer.copy));
    }
  }

  lemma {:induction false} RunAnswers(r: Ring, steps: seq<Step>)
    requires Initial(r)
    ensures Answered(Run(r, steps))
    decreases |steps|
  {
    hide Next, Inv, Answered;
    if steps == [] {
      NothingAnswered(r);
    } else {
      var front, s := steps[..|steps| - 1], steps[|steps| - 1];
      RunKeepsInv(r, front);
      RunAnswers(r, front);
      ThreadsOk(Run(r, front));
      if s.CallPush? || s.LoadTail? || s.StoreWord? || s.StoreHead? {
        ProducerAnswers(Run(r, front), s);
      } else {
        ConsumerAnswers(Run(r, front), s);
      }
    }
  }

  lemma NothingAnswered(r: Ring)
    requires Initial(r)
    ensures Answered(r)
  {
  }

  lemma ThreadsOk(r: Ring)
    requires Inv(r)
    ensures ProducerOk(r) && ConsumerOk(r)
  {
  }

  // ---------------------------------------------------------------- main results

  /** The events popped, in order. */
  function PoppedEvents(log: seq<Outcome>): seq<Words>
    decreases |log|
  {
    if log == [] then []
    else
      var before := PoppedEvents(log[..|log| - 1]);
      if log[|log| - 1].Popped? then before + [log[|log| - 1].event] else before
  }

  function PushedEvents(log: seq<Outcome>): seq<Words>
    decreases |log|
  {
    if log == [] then []
    else
      var before := PushedEvents(log[..|log| - 1]);
      if log[|log| - 1].Pushed? then before + [log[|log| - 1].event] else before
  }

  /** In a log a FIFO could have produced, the popped events and the queue are together the pushed events. */
  lemma {:induction false} FifoConserves(log: seq<Outcome>)
    requires Replay(log).Fifo?
    ensures PoppedEvents(log) + Replay(log).queue == PushedEvents(log)
    decreases |log|
  {
    if log != [] {
      FifoConserves(log[..|log| - 1]);
    }
  }

  /** In every interleaving the calls take effect as on a FIFO of CAPACITY events, one at a time: no event
      is torn, lost, doubled or reordered, a push finds the queue full and a pop finds it empty only when
      it is, and what has been popped is a prefix of what has been accepted. What the calls return is
      exactly that: the answers of push_event and of pop_event are the log's entries, in order, except for
      at most one Empty that pop_event has yet to return; every call gets exactly one answer. */
  lemma RingIsFifo(r: Ring, steps: seq<Step>)
    requires Initial(r)
    ensures var s := Run(r, steps);
            && Replay(s.log).Fifo? && |Replay(s.log).queue| <= CAPACITY
            && PoppedEvents(s.log) + Replay(s.log).queue == PushedEvents(s.log)
            && PoppedEvents(s.log) <= PushedEvents(s.log)
            && s.pushes == PushOutcomes(s.log)
            && s.pushCalls == EventsOf(s.pushes) + (if s.producer.PIdle? then [] else [s.producer.event])
            && (PopOutcomes(s.log) == s.pops || (s.consumer.CCheck? && PopOutcomes(s.log) == s.pops + [Empty]))
            && s.popCalls == |s.pops| + (if s.consumer.CIdle? then 0 else 1)
  {
    RunKeepsInv(r, steps);
    FifoConserves(Run(r, steps).log);
    RunAnswers(r, steps);
  }

  /** While both threads copy, they work on different slots. */
  lemma NoSlotShared(r: Ring, steps: seq<Step>)
    requires Initial(r)
    ensures var s := Run(r, steps); s.producer.PCopy? && s.consumer.CCopy? ==> s.head != s.tail
  {
    RunKeepsInv(r, steps);
    var s := Run(r, steps);
    if s.producer.PCopy? && s.consumer.CCopy? {
      SlotsDiffer(s.popped, |s.accepted|);
    }
  }

  // ---------------------------------------------------------------- a call on its own

  lemma {:induction false} RunInTwo(r: Ring, a: seq<Step>, b: seq<Step>)
    ensures Run(r, a + b) == Run(Run(r, a), b)
    decreases |b|
  {
    hide Next;
    if b == [] {
      assert a + b == a;
    } else {
      assert (a + b)[..|a + b| - 1] == a + b[..|b| - 1];
      RunInTwo(r, a, b[..|b| - 1]);
    }
  }

  lemma RunThen(r: Ring, a: seq<Step>, s: Step)
    ensures Run(r, a + [s]) == Next(Run(r, a), s) && Run(r, []) == r
  {
    hide Next;
    assert (a + [s])[..|a + [s]| - 1] == a;
  }

  lemma RunTwo(r: Ring, s: Step, t: Step)
    ensures Run(r, [s, t]) == Next(Next(r, s), t)
  {
    hide Next;
    RunThen(r, [], s);
    RunThen(r, [s], t);
    assert [] + [s] == [s] && [s] + [t] == [s, t];
  }

  lemma InvSlots(r: Ring)
    requires Inv(r)
    ensures Slots(r)
  {
  }

  function StoreWords(n: nat): seq<Step> {
    if n == 0 then [] else StoreWords(n - 1) + [StoreWord(n - 1)]
  }

  function LoadWords(n: nat): seq<Step> {
    if n == 0 then [] else LoadWords(n - 1) + [LoadWord(n - 1)]
  }

  /** The steps of one push_event and of one pop_event. */
  function PushSteps(event: Words): seq<Step> {
    [CallPush(event), LoadTail] + StoreWords(|event|) + [StoreHead]
  }

  function PopSteps(width: nat): seq<Step> {
    [LoadHead, CompareTail] + LoadWords(width) + [StoreTail]
  }

  lemma {:induction false} WordsStored(r: Ring, n: nat)
    requires Inv(r) && r.producer.PCopy? && r.producer.done == {} && n <= r.width
    ensures var s := Run(r, StoreWords(n));
            && Inv(s) && s == r.(slots := s.slots, producer := s.producer) && s.producer.PCopy?
            && s.producer == r.producer.(done := s.producer.done)
            && forall w :: w in s.producer.done <==> 0 <= w < n
  {
    hide Next, Inv, Run, AllDone;
    if n == 0 {
      RunThen(r, [], StoreHead);
    } else {
      WordsStored(r, n - 1);
      RunThen(r, StoreWords(n - 1), StoreWord(n - 1));
      OneWordStored(Run(r, StoreWords(n - 1)), n - 1);
    }
  }

  lemma OneWordStored(r: Ring, w: nat)
    requires Inv(r) && r.producer.PCopy? && w !in r.producer.done && w < r.width
    ensures var s := Next(r, StoreWord(w));
            && Inv(s) && s == r.(slots := s.slots, producer := s.producer) && s.producer.PCopy?
            && s.producer == r.producer.(done := r.producer.done + {w})
  {
    hide Slots, Replay, ConsumerOk;
    Places(r);
    StepKeepsInv(r, StoreWord(w));
  }

  lemma {:induction false} WordsLoaded(r: Ring, n: nat)
    requires Inv(r) && r.consumer.CCopy? && r.consumer.done == {} && n <= r.width
    ensures var s := Run(r, LoadWords(n));
            && Inv(s) && s == r.(consumer := s.consumer) && s.consumer.CCopy?
            && forall w :: w in s.consumer.done <==> 0 <= w < n
  {
    hide Next, Inv, Run, AllDone;
    if n == 0 {
      RunThen(r, [], StoreTail);
    } else {
      WordsLoaded(r, n - 1);
      RunThen(r, LoadWords(n - 1), LoadWord(n - 1));
      OneWordLoaded(Run(r, LoadWords(n - 1)), n - 1);
    }
  }

  lemma OneWordLoaded(r: Ring, w: nat)
    requires Inv(r) && r.consumer.CCopy? && w !in r.consumer.done && w < r.width
    ensures var s := Next(r, LoadWord(w));
            && Inv(s) && s == r.(consumer := s.consumer) && s.consumer.CCopy?
            && s.consumer.done == r.consumer.done + {w}
  {
    hide Slots, Replay, ProducerOk;
    Places(r);
    StepKeepsInv(r, LoadWord(w));
  }

  lemma PushBegins(r: Ring, event: Words)
    requires Inv(r) && r.producer.PIdle? && |event| == r.width
    ensures r.popped <= |r.accepted|
    ensures var s := Run(r, [CallPush(event), LoadTail]);
            && Inv(s)
            && if |Queued(r)| < CAPACITY
               then s.producer.PCopy? && s.producer.event == event && s.producer.done == {}
                    && s == r.(producer := s.producer, pushCalls := s.pushCalls)
               else s.producer.PIdle? && s.pushes == r.pushes + [Full(event)]
                    && s == r.(pushCalls := s.pushCalls, log := s.log, pushes := s.pushes)
  {
    hide Slots, Run, Inv;
    InvSlots(r);
    Places(r);
    NextSlot(|r.accepted|);
    FullExactly(|r.accepted|, r.popped);
    StepKeepsInv(r, CallPush(event));
    StepKeepsInv(Next(r, CallPush(event)), LoadTail);
    RunTwo(r, CallPush(event), LoadTail);
  }

  lemma {:induction false} NothingStored(r: Ring, n: nat)
    requires r.producer.PIdle?
    ensures Run(r, StoreWords(n)) == r
  {
    hide Run;
    if n == 0 {
      RunThen(r, [], StoreHead);
    } else {
      NothingStored(r, n - 1);
      RunThen(r, StoreWords(n - 1), StoreWord(n - 1));
    }
  }

  /** Whatever the consumer is in the middle of, a push on its own runs to its end and appends the event, or
      answers that the queue is full exactly when it holds CAPACITY events. */
  lemma PushAlone(r: Ring, event: Words)
    requires Inv(r) && r.producer.PIdle? && |event| == r.width
    ensures r.popped <= |r.accepted|
    ensures var s := Run(r, PushSteps(event));
            && s.popped <= |s.accepted| && s.producer.PIdle? && s.consumer == r.consumer
            && if |Queued(r)| < CAPACITY
               then s.pushes == r.pushes + [Pushed(event)] && Queued(s) == Queued(r) + [event]
               else s.pushes == r.pushes + [Full(event)] && Queued(s) == Queued(r)
  {
    hide Next, Inv, Replay;
    PushBegins(r, event);
    var begun := Run(r, [CallPush(event), LoadTail]);
    RunInTwo(r, [CallPush(event), LoadTail], StoreWords(|event|));
    RunThen(r, [CallPush(event), LoadTail] + StoreWords(|event|), StoreHead);
    var copied := Run(begun, StoreWords(|event|));
    if |Queued(r)| < CAPACITY {
      WordsStored(begun, |event|);
      PushEnds(copied);
      assert copied.accepted[copied.popped..] + [event] == (copied.accepted + [event])[copied.popped..];
    } else {
      NothingStored(begun, |event|);
      IdleHead(copied);
    }
  }

  lemma PushEnds(r: Ring)
    requires r.producer.PCopy? && AllDone(r.producer.done, r.width)
    ensures var s := Next(r, StoreHead);
            && s.producer.PIdle? && s.consumer == r.consumer && s.popped == r.popped
            && s.accepted == r.accepted + [r.producer.event] && s.pushes == r.pushes + [Pushed(r.producer.event)]
  {
  }

  lemma IdleHead(r: Ring)
    requires r.producer.PIdle?
    ensures Next(r, StoreHead) == r
  {
  }

  lemma PopBegins(r: Ring)
    requires Inv(r) && r.consumer.CIdle?
    ensures r.popped <= |r.accepted|
    ensures var s := Run(r, [LoadHead, CompareTail]);
            && Inv(s)
            && if Queued(r) != []
               then s.consumer.CCopy? && s.consumer.done == {}
                    && s == r.(consumer := s.consumer, popCalls := s.popCalls)
               else s.consumer.CIdle? && s.pops == r.pops + [Empty]
                    && s == r.(popCalls := s.popCalls, log := s.log, pops := s.pops)
  {
    hide Slots, Run, Inv;
    InvSlots(r);
    Places(r);
    if r.popped < |r.accepted| {
      SlotsDiffer(r.popped, |r.accepted|);
    }
    StepKeepsInv(r, LoadHead);
    StepKeepsInv(Next(r, LoadHead), CompareTail);
    RunTwo(r, LoadHead, CompareTail);
  }

  lemma {:induction false} NothingLoaded(r: Ring, n: nat)
    requires r.consumer.CIdle?
    ensures Run(r, LoadWords(n)) == r
  {
    hide Run;
    if n == 0 {
      RunThen(r, [], StoreTail);
    } else {
      NothingLoaded(r, n - 1);
      RunThen(r, LoadWords(n - 1), LoadWord(n - 1));
    }
  }

  /** Whatever the producer is in the middle of, a pop on its own runs to its end and takes the oldest event,
      or answers that the queue is empty exactly when it is. */
  lemma PopAlone(r: Ring)
    requires Inv(r) && r.consumer.CIdle?
    ensures r.popped <= |r.accepted|
    ensures var s := Run(r, PopSteps(r.width));
            && s.popped <= |s.accepted| && s.consumer.CIdle? && s.producer == r.producer
            && if Queued(r) != []
               then s.pops == r.pops + [Popped(Queued(r)[0])] && Queued(s) == Queued(r)[1..]
               else s.pops == r.pops + [Empty] && Queued(s) == []
  {
    hide Next, Inv, Replay;
    PopBegins(r);
    var begun := Run(r, [LoadHead, CompareTail]);
    RunInTwo(r, [LoadHead, CompareTail], LoadWords(r.width));
    RunThen(r, [LoadHead, CompareTail] + LoadWords(r.width), StoreTail);
    var copied := Run(begun, LoadWords(r.width));
    if Queued(r) != [] {
      WordsLoaded(begun, r.width);
      PopEnds(copied);
    } else {
      NothingLoaded(begun, r.width);
      IdleTail(copied);
    }
  }

  lemma PopEnds(r: Ring)
    requires Inv(r) && r.consumer.CCopy? && AllDone(r.consumer.done, r.width)
    ensures r.popped < |r.accepted|
    ensures var s := Next(r, StoreTail);
            && s.consumer.CIdle? && s.producer == r.producer && s.popped == r.popped + 1
            && s.accepted == r.accepted && s.pops == r.pops + [Popped(r.accepted[r.popped])]
  {
    hide Slots, Replay;
    assert r.consumer.copy == r.accepted[r.popped];
  }

  lemma IdleTail(r: Ring)
    requires r.consumer.CIdle?
    ensures Next(r, StoreTail) == r
  {
  }
}
