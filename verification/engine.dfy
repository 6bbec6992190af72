/** The whole engine, one load or store at a time: the threads with their rings as `Threads` has them, the
    processor's three stores for each variable of an event, and the query server's loads of one twin or of
    all ten, one after another. Each twin's record behaves as `Publication` says, and every value in a
    reply is traced back to an update in a received message. */
module Engine {
  import opened Bytes
  import opened Events
  import opened Memory
  import opened Dispatcher
  import opened Parser
  import opened ParsedEvents
  import T = Threads
  import P = Pipeline
  import Pub = Publication

  /** What a reply says of one twin: an answered query of its record, or that it is out of range. */
  datatype Reading = Known(twin: nat, query: Pub.Query) | Unknown(twin: nat)

  datatype State = State(
    threads: T.State,               // the queues and the threads around them
    records: seq<Pub.State>,        // the twin store, with its history
    next: nat,                      // how far the processor has stored the event in its hands
    todo: seq<nat>,                 // the twins the query server has yet to read
    reply: seq<Reading>,            // what it has read for the request it is answering
    requests: seq<seq<nat>>, replies: seq<seq<Reading>>)

  datatype Step =
    | Queues(s: T.Step)             // a load or store of a queue, a message received, a rule set
    | Write                         // the processor's next store, or its routing when all are made
    | Ask(ids: seq<nat>)            // the query server gets a request
    | Read                          // its next load, or its reply when all are made
    | Delete(t: nat)

  function AllTwins(): seq<nat> {
    [0, 1, 2, 3, 4, 5, 6, 7, 8, 9]
  }

  /** The event whose values the processor is storing. */
  predicate Storing(c: T.State) {
    c.held != [] && c.held[0].header.kind == EVENT_UPDATE && c.held[0].payload.Updates?
  }

  ghost predicate Shaped(s: State) {
    P.Shape(T.Locals(s.threads)) && |s.records| == MAX_TWINS
  }

  /** The processor's next action on a record. */
  function StoreStep(r: Pub.State, u: Update): Pub.Step {
    match r.writer
    case WIdle => Pub.StoreVar(Cell(u.varId), u.bits)
    case WStatus => Pub.StoreStatus
    case WTime => Pub.StoreTime
  }

  ghost function WriteNext(s: State): State
    requires Shaped(s)
  {
    var c := s.threads;
    if c.held == [] then s
    else if !Storing(c) || s.next >= |c.held[0].payload.updates| then
      s.(threads := T.Next(c, T.Own(P.Dispatch)), next := 0)
    else
      var t, u := c.held[0].header.twinId, c.held[0].payload.updates[s.next];
      if !InRange(t, Cell(u.varId)) then s.(next := s.next + 1)
      else
        var r := s.records[t];
        s.(records := s.records[t := Pub.Next(r, StoreStep(r, u))],
           next := if r.writer.WTime? then s.next + 1 else s.next)
  }

  function ReadNext(s: State): State
    requires |s.records| == MAX_TWINS
  {
    if s.todo == [] then
      if |s.requests| > |s.replies| then s.(replies := s.replies + [s.reply], reply := []) else s
    else
      var t := s.todo[0];
      if t >= MAX_TWINS then s.(todo := s.todo[1..], reply := s.reply + [Unknown(t)])
      else
        var r := s.records[t];
        match r.reader
        case RIdle => s.(records := s.records[t := Pub.Next(r, Pub.LoadStatus)])
        case RReading(q) =>
          if |q.vals| < |r.vars| then s.(records := s.records[t := Pub.Next(r, Pub.LoadVar)])
          else s.(records := s.records[t := Pub.Next(r, Pub.Answer)], todo := s.todo[1..],
                  reply := s.reply + [Known(t, q)])
  }

  /** One step; a step whose thread is not ready for it changes nothing. The server takes one request, or
      one deletion, at a time. */
  ghost function Next(s: State, step: Step): State
    requires Shaped(s)
  {
    match step
    case Queues(q) =>
      if q.Own? && !q.step.Receive? && !q.step.SetRule? then s else s.(threads := T.Next(s.threads, q))
    case Write => WriteNext(s)
    case Ask(ids) =>
      if |s.requests| == |s.replies| && (|ids| == 1 || ids == AllTwins())
      then s.(requests := s.requests + [ids], todo := ids, reply := []) else s
    case Read => ReadNext(s)
    case Delete(t) =>
      if |s.requests| == |s.replies| && t < MAX_TWINS
      then s.(records := s.records[t := Pub.Next(s.records[t], Pub.Delete)]) else s
  }

  // ---------------------------------------------------------------- what has been stored

  /** The stores an event's updates ask for, in order; those out of range are not made. */
  function StoresOf(us: seq<Update>): seq<Pub.Store>
    decreases |us|
  {
    if us == [] then []
    else
      var u := us[|us| - 1];
      StoresOf(us[..|us| - 1])
        + (if Cell(u.varId) < MAX_VARS_PER_TWINS then [Pub.Store(Cell(u.varId), u.bits)] else [])
  }

  function StoresFor(e: Event, t: nat): seq<Pub.Store> {
    if e.header.kind == EVENT_UPDATE && e.payload.Updates? && e.header.twinId == t
    then StoresOf(e.payload.updates) else []
  }

  function TwinStores(es: seq<Event>, t: nat): seq<Pub.Store>
    decreases |es|
  {
    if es == [] then [] else TwinStores(es[..|es| - 1], t) + StoresFor(es[|es| - 1], t)
  }

  /** The stores already made for the event in the processor's hands. */
  function Partial(s: State, t: nat): seq<Pub.Store>
    requires |s.records| == MAX_TWINS && t < MAX_TWINS
  {
    if !Storing(s.threads) || s.threads.held[0].header.twinId != t then []
    else
      var us := s.threads.held[0].payload.updates;
      var n := s.next + (if s.records[t].writer.WIdle? then 0 else 1);
      StoresOf(us[..if n <= |us| then n else |us|])
  }

  // ---------------------------------------------------------------- the invariant

  ghost predicate Records(s: State) {
    |s.records| == MAX_TWINS && forall t :: 0 <= t < MAX_TWINS ==> Pub.Inv(s.records[t])
  }

  /** Only the record of the variable being stored is half written. */
  ghost predicate WriterOk(s: State)
    requires |s.records| == MAX_TWINS
  {
    && (!Storing(s.threads) ==> s.next == 0)
    && (Storing(s.threads) ==> s.next <= |s.threads.held[0].payload.updates|)
    && forall t :: 0 <= t < MAX_TWINS && !s.records[t].writer.WIdle? ==> WritingTo(s, t)
  }

  predicate WritingTo(s: State, t: nat) {
    && Storing(s.threads) && s.threads.held[0].header.twinId == t
    && s.next < |s.threads.held[0].payload.updates|
    && InRange(t, Cell(s.threads.held[0].payload.updates[s.next].varId))
  }

  ghost predicate StoredOk(s: State)
    requires |s.records| == MAX_TWINS
  {
    forall t :: 0 <= t < MAX_TWINS ==>
      s.records[t].stores == TwinStores(P.Taken(s.threads.processed), t) + Partial(s, t)
  }

  /** What a reply says of a twin was answered by its record. */
  ghost predicate Grounded(records: seq<Pub.State>, rs: seq<Reading>) {
    forall r :: r in rs ==> r.Known? ==> r.twin < |records| && r.query in records[r.twin].answers
  }

  function TwinsOf(rs: seq<Reading>): (ts: seq<nat>)
    ensures |ts| == |rs| && forall i :: 0 <= i < |rs| ==> ts[i] == rs[i].twin
  {
    seq(|rs|, i requires 0 <= i < |rs| => rs[i].twin)
  }

  /** Only the twin being read has a query in progress; every reply has one reading for each twin asked, in
      order. */
  ghost predicate ReaderOk(s: State)
    requires |s.records| == MAX_TWINS
  {
    && (forall t :: 0 <= t < MAX_TWINS && !s.records[t].reader.RIdle? ==> s.todo != [] && s.todo[0] == t)
    && Grounded(s.records, s.reply) && (forall rs :: rs in s.replies ==> Grounded(s.records, rs))
    && |s.replies| <= |s.requests| <= |s.replies| + 1
    && (|s.requests| == |s.replies| ==> s.todo == [] && s.reply == [])
    && (|s.requests| > |s.replies| ==> TwinsOf(s.reply) + s.todo == s.requests[|s.replies|])
    && (forall i :: 0 <= i < |s.replies| ==> TwinsOf(s.replies[i]) == s.requests[i])
  }

  ghost predicate Inv(s: State) {
    Shaped(s) && T.Inv(s.threads) && Records(s) && WriterOk(s) && StoredOk(s) && ReaderOk(s)
  }

  ghost predicate Initial(s: State) {
    && T.Initial(s.threads) && |s.records| == MAX_TWINS
    && (forall t :: 0 <= t < MAX_TWINS ==> Pub.Initial(s.records[t]))
    && s.next == 0 && s.todo == [] && s.reply == [] && s.requests == [] && s.replies == []
  }

  // ---------------------------------------------------------------- histories grow

  lemma StoresThen(us: seq<Update>, n: nat)
    requires n < |us|
    ensures StoresOf(us[..n + 1]) == StoresOf(us[..n])
              + (if Cell(us[n].varId) < MAX_VARS_PER_TWINS then [Pub.Store(Cell(us[n].varId), us[n].bits)] else [])
  {
    assert us[..n + 1][..n] == us[..n];
  }

  lemma TwinStoresThen(es: seq<Event>, e: Event, t: nat)
    ensures TwinStores(es + [e], t) == TwinStores(es, t) + StoresFor(e, t)
  {
    assert (es + [e])[..|es + [e]| - 1] == es;
  }

  lemma TakenThen(ps: seq<P.Processed>, p: P.Processed)
    ensures P.Taken(ps + [p]) == P.Taken(ps) + [p.event]
  {
    P.Snoc(ps, p);
  }

  // ---------------------------------------------------------------- the threads' own steps

  ghost predicate Forwarded(q: T.Step) {
    q.Own? ==> q.step.Receive? || q.step.SetRule?
  }

  /** A queue's step never takes an event out of the processor's hands, and gives it one only when they are
      empty. */
  lemma HeldKept(c: T.State, q: T.Step)
    requires T.Inv(c) && Forwarded(q)
    ensures var n := T.Next(c, q);
            T.Inv(n) && n.processed == c.processed && (n.held == c.held || c.held == [])
  {
    hide T.Inv, T.RingOk, P.Inv;
    T.StepKeepsInv(c, q);
    BusyRings(c);
    match q
    case Main(r) => T.RingStep(c.main, r);
    case _ =>
  }

  lemma BusyRings(c: T.State)
    requires T.Inv(c)
    ensures T.RingOk(c.main) && T.Busy(c) && P.Shape(T.Locals(c))
  {
  }

  /** What such a step leaves of the store's progress. */
  lemma ProgressKept(s: State, c: T.State)
    requires |s.records| == MAX_TWINS && WriterOk(s) && StoredOk(s)
    requires c.processed == s.threads.processed && (c.held == s.threads.held || s.threads.held == [])
    ensures var n := s.(threads := c); WriterOk(n) && StoredOk(n)
  {
    hide P.Taken, TwinStores;
    var n := s.(threads := c);
    NothingStored();
    forall t | 0 <= t < MAX_TWINS ensures Partial(n, t) == Partial(s, t) {
      if s.threads.held == [] {
        assert s.records[t].writer.WIdle?;
      }
    }
    hide Partial;
  }

  lemma QueuesKeeps(s: State, q: T.Step)
    requires Inv(s)
    ensures Inv(Next(s, Queues(q)))
  {
    hide T.Inv, T.Next, P.Shape, Records, ReaderOk, WriterOk, StoredOk;
    if Forwarded(q) {
      HeldKept(s.threads, q);
      var n := Next(s, Queues(q));
      T.ViewOk(n.threads);
      SameRecords(s, n);
      ProgressKept(s, n.threads);
    }
  }

  lemma NothingStored()
    ensures StoresOf([]) == []
  {
  }

  lemma SameRecords(s: State, n: State)
    requires n.records == s.records && n.todo == s.todo && n.reply == s.reply
    requires n.requests == s.requests && n.replies == s.replies
    ensures Records(s) ==> Records(n)
    ensures |s.records| == MAX_TWINS && ReaderOk(s) ==> ReaderOk(n)
  {
  }

  // ---------------------------------------------------------------- the processor

  /** What a writer's step leaves alone and what a reader's or a deletion does. */
  lemma RecordStep(r: Pub.State, p: Pub.Step)
    ensures var n := Pub.Next(r, p);
            && (p.StoreVar? || p.StoreStatus? || p.StoreTime? ==> n.reader == r.reader && n.answers == r.answers)
            && (p.LoadStatus? || p.LoadVar? || p.Answer? || p.Delete? ==> n.writer == r.writer && n.stores == r.stores)
            && r.answers <= n.answers
            && (p.Delete? ==> n.reader == r.reader)
  {
  }

  lemma RecordKeeps(s: State, t: nat, p: Pub.Step)
    requires Records(s) && t < MAX_TWINS
    ensures Records(s.(records := s.records[t := Pub.Next(s.records[t], p)]))
  {
    hide Pub.Inv, Pub.Next;
    Pub.StepKeepsInv(s.records[t], p);
  }

  lemma DispatchFields(c: T.State)
    requires P.Shape(T.Locals(c)) && c.held != []
    ensures var n := T.Next(c, T.Own(P.Dispatch));
            n.held == [] && n.processed == c.processed + [P.Processed(c.held[0], c.table)]
  {
    hide P.BatchOf, P.Stored;
  }

  lemma DispatchThreads(c: T.State)
    requires T.Inv(c) && c.held != []
    ensures P.Shape(T.Locals(c))
    ensures var n := T.Next(c, T.Own(P.Dispatch));
            && T.Inv(n) && P.Shape(T.Locals(n)) && n.held == []
            && n.processed == c.processed + [P.Processed(c.held[0], c.table)]
  {
    hide T.Inv, T.Next, P.Shape;
    T.ViewOk(c);
    T.StepKeepsInv(c, T.Own(P.Dispatch));
    DispatchFields(c);
  }

  lemma RoutedStores(s: State, c: T.State)
    requires |s.records| == MAX_TWINS && WriterOk(s) && StoredOk(s) && s.threads.held != []
    requires !Storing(s.threads) || s.next >= |s.threads.held[0].payload.updates|
    requires c.held == [] && |c.processed| == |s.threads.processed| + 1
    requires c.processed[..|s.threads.processed|] == s.threads.processed
    requires c.processed[|s.threads.processed|].event == s.threads.held[0]
    ensures var n := s.(threads := c, next := 0); WriterOk(n) && StoredOk(n)
  {
    hide TwinStores, P.Taken, StoresFor;
    var n, e := s.(threads := c, next := 0), s.threads.held[0];
    var ps, p := s.threads.processed, c.processed[|s.threads.processed|];
    assert c.processed == ps + [p];
    TakenThen(ps, p);
    forall t | 0 <= t < MAX_TWINS
      ensures n.records[t].stores == TwinStores(P.Taken(c.processed), t) + Partial(n, t)
    {
      TwinStoresThen(P.Taken(ps), e, t);
      PartialWhole(s, t);
    }
  }

  lemma RouteKeeps(s: State)
    requires Inv(s) && s.threads.held != []
    requires !Storing(s.threads) || s.next >= |s.threads.held[0].payload.updates|
    ensures Inv(Next(s, Write))
  {
    hide T.Inv, T.Next, P.Shape, Records, ReaderOk, WriterOk, StoredOk;
    DispatchThreads(s.threads);
    var n := Next(s, Write);
    SameRecords(s, n);
    RoutedStores(s, n.threads);
  }

  /** When all its stores are made, an event has had all the stores it asks for. */
  lemma PartialWhole(s: State, t: nat)
    requires |s.records| == MAX_TWINS && t < MAX_TWINS && WriterOk(s) && s.threads.held != []
    requires !Storing(s.threads) || s.next >= |s.threads.held[0].payload.updates|
    ensures Partial(s, t) == StoresFor(s.threads.held[0], t)
  {
    if Storing(s.threads) {
      var us := s.threads.held[0].payload.updates;
      assert us[..|us|] == us;
    }
  }

  /** One more store of the event in the processor's hands. */
  lemma StoreMade(s: State, n: State)
    requires |s.records| == MAX_TWINS && Records(s) && WriterOk(s) && StoredOk(s)
    requires Storing(s.threads) && s.next < |s.threads.held[0].payload.updates|
    requires Shaped(s) && n == WriteNext(s)
    ensures WriterOk(n) && StoredOk(n)
  {
    hide TwinStores, P.Taken, StoresOf, Pub.Inv, Pub.Next, P.Shape, StoreStep;
    var us, t := s.threads.held[0].payload.updates, s.threads.held[0].header.twinId;
    var u := us[s.next];
    StoresThen(us, s.next);
    if InRange(t, Cell(u.varId)) {
      WriterStep(s.records[t], u);
      assert forall o :: 0 <= o < MAX_TWINS && o != t ==> n.records[o] == s.records[o];
    }
  }

  lemma StoreKeeps(s: State)
    requires Inv(s) && Storing(s.threads) && s.next < |s.threads.held[0].payload.updates|
    ensures Inv(Next(s, Write))
  {
    hide T.Inv, T.Next, StoredOk, WriterOk, Pub.Inv, Pub.Next, P.Shape, Grounded;
    var us, t := s.threads.held[0].payload.updates, s.threads.held[0].header.twinId;
    var u, n := us[s.next], Next(s, Write);
    StoreMade(s, n);
    if InRange(t, Cell(u.varId)) {
      var p := StoreStep(s.records[t], u);
      RecordKeeps(s, t, p);
      RecordStep(s.records[t], p);
      GroundedMore(s.records, t, n.records[t], s.reply);
      forall rs | rs in s.replies ensures Grounded(n.records, rs) {
        GroundedMore(s.records, t, n.records[t], rs);
      }
    }
  }

  /** The three stores of a variable. */
  lemma WriterStep(r: Pub.State, u: Update)
    requires Pub.Inv(r) && Cell(u.varId) < MAX_VARS_PER_TWINS
    ensures var n := Pub.Next(r, StoreStep(r, u));
            match r.writer
            case WIdle => n.writer.WStatus? && n.stores == r.stores + [Pub.Store(Cell(u.varId), u.bits)]
            case WStatus => n.writer.WTime? && n.stores == r.stores
            case WTime => n.writer.WIdle? && n.stores == r.stores
  {
  }

  // ---------------------------------------------------------------- the query server

  lemma GroundedMore(records: seq<Pub.State>, t: nat, r: Pub.State, rs: seq<Reading>)
    requires Grounded(records, rs) && t < |records| && records[t].answers <= r.answers
    ensures Grounded(records[t := r], rs)
  {
  }

  /** A reader's step on one record. */
  lemma ReaderKeeps(s: State, t: nat, p: Pub.Step)
    requires Inv(s) && t < MAX_TWINS && (p.LoadStatus? || p.LoadVar? || p.Answer? || p.Delete?)
    ensures var n := s.(records := s.records[t := Pub.Next(s.records[t], p)]);
            && T.Inv(n.threads) && Records(n) && WriterOk(n) && StoredOk(n)
            && Grounded(n.records, n.reply) && forall rs :: rs in n.replies ==> Grounded(n.records, rs)
  {
    hide T.Inv, TwinStores, P.Taken, StoresOf, Pub.Inv, Pub.Next, Grounded;
    var r := s.records[t];
    RecordKeeps(s, t, p);
    RecordStep(r, p);
    GroundedMore(s.records, t, Pub.Next(r, p), s.reply);
    forall rs | rs in s.replies ensures Grounded(s.records[t := Pub.Next(r, p)], rs) {
      GroundedMore(s.records, t, Pub.Next(r, p), rs);
    }
  }

  lemma ReadKeeps(s: State)
    requires Inv(s)
    ensures Inv(Next(s, Read))
  {
    hide T.Inv, WriterOk, StoredOk, Pub.Inv, P.Shape;
    var n := Next(s, Read);
    if s.todo == [] {
      ReplyKeeps(s);
    } else {
      var t := s.todo[0];
      if t >= MAX_TWINS {
        UnknownKeeps(s);
      } else {
        match s.records[t].reader
        case RIdle => ReaderKeeps(s, t, Pub.LoadStatus);
        case RReading(q) =>
          if |q.vals| < |s.records[t].vars| {
            ReaderKeeps(s, t, Pub.LoadVar);
          } else {
            AnswerKeeps(s, q);
          }
      }
    }
  }

  lemma SameStore(s: State, n: State)
    requires n.records == s.records && n.threads == s.threads && n.next == s.next
    ensures Records(s) ==> Records(n)
    ensures |s.records| == MAX_TWINS && WriterOk(s) ==> WriterOk(n)
    ensures |s.records| == MAX_TWINS && StoredOk(s) ==> StoredOk(n)
  {
    hide Pub.Inv, TwinStores, P.Taken, StoresOf;
    if |s.records| == MAX_TWINS {
      SameProgress(s, n);
    }
  }

  lemma SameProgress(s: State, n: State)
    requires n.records == s.records && n.threads == s.threads && n.next == s.next && |s.records| == MAX_TWINS
    ensures forall t :: 0 <= t < MAX_TWINS ==> Partial(n, t) == Partial(s, t) && WritingTo(n, t) == WritingTo(s, t)
  {
    hide StoresOf;
  }

  lemma ReplyKeeps(s: State)
    requires Inv(s) && s.todo == []
    ensures Inv(ReadNext(s))
  {
    hide T.Inv, WriterOk, StoredOk, Records, Grounded;
    SameStore(s, ReadNext(s));
    assert Grounded(s.records, []) by {
      NothingRead(s.records);
    }
    if |s.requests| > |s.replies| {
      assert TwinsOf(s.reply) + [] == TwinsOf(s.reply);
    }
  }

  lemma NothingRead(records: seq<Pub.State>)
    ensures Grounded(records, [])
  {
  }

  lemma TwinsThen(rs: seq<Reading>, r: Reading, todo: seq<nat>)
    requires todo != [] && r.twin == todo[0]
    ensures TwinsOf(rs + [r]) + todo[1..] == TwinsOf(rs) + todo
  {
  }

  lemma UnknownKeeps(s: State)
    requires Inv(s) && s.todo != [] && s.todo[0] >= MAX_TWINS
    ensures Inv(ReadNext(s))
  {
    hide T.Inv, WriterOk, StoredOk, Records, TwinsOf;
    SameStore(s, ReadNext(s));
    TwinsThen(s.reply, Unknown(s.todo[0]), s.todo);
  }

  lemma AnswerKeeps(s: State, q: Pub.Query)
    requires Inv(s) && s.todo != [] && s.todo[0] < MAX_TWINS
    requires s.records[s.todo[0]].reader == Pub.RReading(q) && |q.vals| >= |s.records[s.todo[0]].vars|
    ensures Inv(ReadNext(s))
  {
    hide T.Inv, WriterOk, StoredOk, Records, TwinsOf;
    var t := s.todo[0];
    ReaderKeeps(s, t, Pub.Answer);
    var m := s.(records := s.records[t := Pub.Next(s.records[t], Pub.Answer)]);
    SameStore(m, ReadNext(s));
    TwinsThen(s.reply, Known(t, q), s.todo);
    RecordOk(s, t);
    AnswerGiven(s.records[t], q);
  }

  lemma RecordOk(s: State, t: nat)
    requires Records(s) && t < MAX_TWINS
    ensures Pub.Inv(s.records[t])
  {
  }

  lemma AnswerGiven(r: Pub.State, q: Pub.Query)
    requires Pub.Inv(r) && r.reader == Pub.RReading(q) && |q.vals| >= |r.vars|
    ensures Pub.Next(r, Pub.Answer).reader.RIdle? && q in Pub.Next(r, Pub.Answer).answers
  {
  }

  lemma AskKeeps(s: State, ids: seq<nat>)
    requires Inv(s)
    ensures Inv(Next(s, Ask(ids)))
  {
    hide T.Inv, WriterOk, StoredOk, Records, Grounded, P.Shape;
    var n := Next(s, Ask(ids));
    SameStore(s, n);
    NothingRead(s.records);
    assert TwinsOf([]) + ids == ids;
  }

  lemma DeleteKeeps(s: State, t: nat)
    requires Inv(s)
    ensures Inv(Next(s, Delete(t)))
  {
    hide T.Inv, WriterOk, StoredOk, Records, Grounded, P.Shape, Pub.Next;
    if |s.requests| == |s.replies| && t < MAX_TWINS {
      ReaderKeeps(s, t, Pub.Delete);
      RecordStep(s.records[t], Pub.Delete);
    }
  }

  lemma WriteKeeps(s: State)
    requires Inv(s)
    ensures Inv(Next(s, Write))
  {
    hide T.Inv, WriterOk, StoredOk, Records, ReaderOk, P.Shape, T.Next, Pub.Next;
    if s.threads.held != [] {
      if !Storing(s.threads) || s.next >= |s.threads.held[0].payload.updates| {
        RouteKeeps(s);
      } else {
        StoreKeeps(s);
      }
    }
  }

  lemma StepKeeps(s: State, step: Step)
    requires Inv(s)
    ensures Inv(Next(s, step))
  {
    hide Next, Inv;
    match step
    case Queues(q) => QueuesKeeps(s, q);
    case Write => WriteKeeps(s);
    case Ask(ids) => AskKeeps(s, ids);
    case Read => ReadKeeps(s);
    case Delete(t) => DeleteKeeps(s, t);
  }

  // ---------------------------------------------------------------- runs

  ghost function Run(s: State, steps: seq<Step>): (r: State)
    requires Inv(s)
    ensures Inv(r)
    decreases |steps|
  {
    if steps == [] then s
    else
      var before := Run(s, steps[..|steps| - 1]);
      StepKeeps(before, steps[|steps| - 1]);
      Next(before, steps[|steps| - 1])
  }

  lemma RecordInitial(r: Pub.State)
    requires Pub.Initial(r)
    ensures Pub.Inv(r) && r.writer.WIdle? && r.reader.RIdle? && r.stores == []
  {
  }

  lemma InitialHolds(s: State)
    requires Initial(s)
    ensures Inv(s)
  {
    hide T.Inv, T.Initial, Pub.Initial, Pub.Inv, P.Shape;
    T.InitialHolds(s.threads);
    T.ViewOk(s.threads);
    forall t | 0 <= t < MAX_TWINS
      ensures Pub.Inv(s.records[t]) && s.records[t].writer.WIdle? && s.records[t].reader.RIdle? && s.records[t].stores == []
    {
      RecordInitial(s.records[t]);
    }
    NothingHeld(s.threads);
  }

  lemma NothingHeld(c: T.State)
    requires T.Initial(c)
    ensures c.held == [] && c.processed == []
  {
  }

  ghost function After(s: State, steps: seq<Step>): (r: State)
    requires Initial(s)
    ensures Inv(r)
  {
    InitialHolds(s);
    Run(s, steps)
  }

  // ---------------------------------------------------------------- where values come from

  /** The update put these bits into this cell. */
  predicate Origin(e: Event, u: Update, t: nat, x: Pub.Store) {
    && e.header.kind == EVENT_UPDATE && e.payload.Updates? && e.header.twinId == t
    && u in e.payload.updates && x == Pub.Store(Cell(u.varId), u.bits)
  }

  lemma {:induction false} StoreOrigin(us: seq<Update>, k: nat) returns (u: Update)
    requires k < |StoresOf(us)|
    ensures u in us && StoresOf(us)[k] == Pub.Store(Cell(u.varId), u.bits)
    decreases |us|
  {
    var front := us[..|us| - 1];
    if k < |StoresOf(front)| {
      u := StoreOrigin(front, k);
    } else {
      u := us[|us| - 1];
    }
  }

  lemma {:induction false} TwinStoreOrigin(es: seq<Event>, t: nat, k: nat) returns (e: Event, u: Update)
    requires k < |TwinStores(es, t)|
    ensures e in es && Origin(e, u, t, TwinStores(es, t)[k])
    decreases |es|
  {
    var front := es[..|es| - 1];
    if k < |TwinStores(front, t)| {
      e, u := TwinStoreOrigin(front, t, k);
    } else {
      e := es[|es| - 1];
      u := StoreOrigin(e.payload.updates, k - |TwinStores(front, t)|);
    }
  }

  lemma {:induction false} StoresPrefix(us: seq<Update>, n: nat)
    requires n <= |us|
    ensures StoresOf(us[..n]) <= StoresOf(us)
    decreases |us|
  {
    if n < |us| {
      var front := us[..|us| - 1];
      StoresPrefix(front, n);
      assert front[..n] == us[..n];
    } else {
      assert us[..n] == us;
    }
  }

  /** The stores made are between those of the events dispatched and those of the events taken. */
  lemma StoresBetween(s: State, t: nat)
    requires Inv(s) && t < MAX_TWINS
    ensures TwinStores(P.Taken(s.threads.processed), t) <= s.records[t].stores
    ensures s.records[t].stores <= TwinStores(P.Taken(s.threads.processed) + s.threads.held, t)
  {
    hide T.Inv, Records, ReaderOk, P.Taken, TwinStores, StoresOf;
    var c := s.threads;
    var taken := P.Taken(c.processed);
    if c.held == [] {
      assert taken + c.held == taken;
    } else {
      OneHeld(s);
      assert c.held == [c.held[0]];
      TwinStoresThen(taken, c.held[0], t);
      if Storing(c) && c.held[0].header.twinId == t {
        var us := c.held[0].payload.updates;
        var n := s.next + (if s.records[t].writer.WIdle? then 0 else 1);
        StoresPrefix(us, if n <= |us| then n else |us|);
      }
    }
  }

  lemma OneHeld(s: State)
    requires Inv(s)
    ensures |s.threads.held| <= 1
  {
  }

  lemma {:induction false} AcceptedOffered(os: seq<P.Offered>)
    ensures forall e :: e in P.Accepted(os) ==> e in P.Offers(os)
    decreases |os|
  {
    if os != [] {
      AcceptedOffered(os[..|os| - 1]);
    }
  }

  /** An event the processor has taken was parsed from a message. */
  lemma TakenParsed(p: P.State, e: Event)
    requires P.Inv(p) && e in P.Taken(p.processed) + p.held
    ensures e in P.AllParsed(p.received)
  {
    hide P.Accepted, P.Offers, P.Taken, P.AllParsed, P.Typed, P.Shape, P.SameVars;
    AcceptedOffered(p.main.offers);
    assert e in p.main.popped;
    assert e in P.Accepted(p.main.offers);
    assert e in P.Offers(p.main.offers) + p.parsed;
  }

  lemma {:induction false} ParsedFrom(ms: seq<P.Message>, e: Event) returns (m: P.Message)
    requires e in P.AllParsed(ms)
    ensures m in ms && e in Parse(m.data, m.base, m.junk).events
    decreases |ms|
  {
    hide Parse;
    var front := ms[..|ms| - 1];
    if e in P.AllParsed(front) {
      m := ParsedFrom(front, e);
    } else {
      m := ms[|ms| - 1];
    }
  }

  /** Every store of a twin's value comes from an update in an event parsed from a received message. */
  lemma StoreTraced(s: State, t: nat, k: nat) returns (m: P.Message, e: Event, u: Update)
    requires Inv(s) && t < MAX_TWINS && k < |s.records[t].stores|
    ensures m in s.threads.received && e in Parse(m.data, m.base, m.junk).events
    ensures Origin(e, u, t, s.records[t].stores[k])
  {
    hide T.Inv, T.View, Records, WriterOk, StoredOk, ReaderOk, TwinStores, P.Taken, P.Inv, P.AllParsed, Parse, Origin;
    StoresBetween(s, t);
    var es := P.Taken(s.threads.processed) + s.threads.held;
    e, u := TwinStoreOrigin(es, t, k);
    T.ViewOk(s.threads);
    ViewFields(s.threads);
    TakenParsed(T.View(s.threads), e);
    m := ParsedFrom(s.threads.received, e);
  }

  lemma ViewFields(c: T.State)
    ensures T.View(c).processed == c.processed && T.View(c).held == c.held && T.View(c).received == c.received
  {
  }

  lemma {:induction false} LatestStored(stores: seq<Pub.Store>, v: nat) returns (k: nat)
    ensures if exists j :: 0 <= j < |stores| && stores[j].varId == v
            then k < |stores| && stores[k] == Pub.Store(v, Pub.Latest(stores, v))
            else Pub.Latest(stores, v) == 0
    decreases |stores|
  {
    k := 0;
    if stores != [] {
      var n := |stores| - 1;
      if stores[n].varId == v {
        k := n;
      } else {
        k := LatestStored(stores[..n], v);
      }
    }
  }

  // ---------------------------------------------------------------- main results

  /** A value in a reply is the latest of the stores made to its variable before its load; if there was none
      it is zero, and otherwise it is the value of an update in an event parsed from a received message. */
  ghost predicate Traced(s: State, t: nat, q: Pub.Query, v: nat)
    requires |s.records| == MAX_TWINS && t < MAX_TWINS
  {
    var stores := s.records[t].stores;
    && v < |q.vals| == |q.at| && q.at[v] <= |stores|
    && q.vals[v] == Pub.Latest(stores[..q.at[v]], v)
    && ((forall k :: 0 <= k < q.at[v] ==> stores[k].varId != v) ==> q.vals[v] == 0)
    && ((exists k :: 0 <= k < q.at[v] && stores[k].varId == v) ==>
          exists m, e, u :: m in s.threads.received && e in Parse(m.data, m.base, m.junk).events
                            && Origin(e, u, t, Pub.Store(v, q.vals[v])))
  }

  lemma ReadingOk(s: State, t: nat, q: Pub.Query)
    requires Inv(s) && t < MAX_TWINS && q in s.records[t].answers
    ensures Pub.Published(q, s.records[t].stores)
    ensures forall v :: 0 <= v < MAX_VARS_PER_TWINS ==> Traced(s, t, q, v)
  {
    hide Pub.Published, Pub.Inv, T.Inv, P.Shape, Records, WriterOk, StoredOk, ReaderOk, Traced;
    RecordOk(s, t);
    Pub.AnswerPublished(s.records[t], q);
    forall v | 0 <= v < MAX_VARS_PER_TWINS ensures Traced(s, t, q, v) {
      ValueTraced(s, t, q, v);
    }
  }

  lemma AnswerValue(r: Pub.State, q: Pub.Query, v: nat)
    requires Pub.Inv(r) && q in r.answers && v < MAX_VARS_PER_TWINS
    ensures |q.vals| == |q.at| == MAX_VARS_PER_TWINS && q.at[v] <= |r.stores|
    ensures q.vals[v] == Pub.Latest(r.stores[..q.at[v]], v)
  {
  }

  lemma ValueTraced(s: State, t: nat, q: Pub.Query, v: nat)
    requires Inv(s) && t < MAX_TWINS && q in s.records[t].answers && v < MAX_VARS_PER_TWINS
    ensures Traced(s, t, q, v)
  {
    hide Pub.Inv, T.Inv, P.Shape, Records, WriterOk, StoredOk, ReaderOk, Pub.Latest, Parse, Origin;
    RecordOk(s, t);
    var stores := s.records[t].stores;
    AnswerValue(s.records[t], q, v);
    var earlier := stores[..q.at[v]];
    var k := LatestStored(earlier, v);
    if j :| 0 <= j < q.at[v] && stores[j].varId == v {
      assert earlier[j].varId == v;
      var m, e, u := StoreTraced(s, t, k);
    }
  }

  /** In every interleaving of all the engine's threads, each reply has one reading for each twin asked for, in
      order; each reading of a twin in range shows every update completed before its status load or a newer
      one, and the status that belongs to it; and each of its values is traced to a received message. */
  lemma RepliesTraced(s: State, steps: seq<Step>, i: nat)
    requires Initial(s) && i < |After(s, steps).replies|
    ensures var n := After(s, steps);
            && |n.records| == MAX_TWINS && i < |n.requests| && TwinsOf(n.replies[i]) == n.requests[i]
            && forall r :: r in n.replies[i] && r.Known? ==>
                 && r.twin < MAX_TWINS && Pub.Published(r.query, n.records[r.twin].stores)
                 && forall v :: 0 <= v < MAX_VARS_PER_TWINS ==> Traced(n, r.twin, r.query, v)
  {
    hide Run, Traced, Pub.Published, T.Inv, P.Shape, Records, WriterOk, StoredOk;
    var n := After(s, steps);
    assert n.replies[i] in n.replies;
    forall r | r in n.replies[i] && r.Known?
      ensures r.twin < MAX_TWINS && Pub.Published(r.query, n.records[r.twin].stores)
      ensures forall v :: 0 <= v < MAX_VARS_PER_TWINS ==> Traced(n, r.twin, r.query, v)
    {
      ReadingOk(n, r.twin, r.query);
    }
  }

  /** And the stores are made in the order of the queue: those of each twin are the ones that the events taken
      from the main queue ask for, all of the dispatched ones and a beginning of the one in hand. */
  lemma StoresFollowQueue(s: State, steps: seq<Step>, t: nat)
    requires Initial(s) && t < MAX_TWINS
    ensures var n := After(s, steps);
            var p := T.View(n.threads);
            && |n.records| == MAX_TWINS
            && TwinStores(P.Taken(p.processed), t) <= n.records[t].stores <= TwinStores(p.main.popped, t)
            && p.main.popped <= P.Accepted(p.main.offers)
            && P.Offers(p.main.offers) + p.parsed == P.AllParsed(p.received)
  {
    hide Run, T.View, T.Inv, P.Inv, Records, WriterOk, StoredOk, ReaderOk, TwinStores, P.Taken, P.Accepted, P.Offers, P.AllParsed;
    var n := After(s, steps);
    StoresBetween(n, t);
    T.ViewOk(n.threads);
    ViewFields(n.threads);
    QueueFacts(T.View(n.threads));
  }

  lemma QueueFacts(p: P.State)
    requires P.Inv(p)
    ensures p.main.popped == P.Taken(p.processed) + p.held
    ensures p.main.popped <= P.Accepted(p.main.offers)
    ensures P.Offers(p.main.offers) + p.parsed == P.AllParsed(p.received)
  {
    hide P.Accepted, P.Offers, P.Taken, P.AllParsed, P.Typed, P.Shape, P.SameVars, P.BatchesOf;
  }

  /** Splitting the dispatcher's stores and adding the query server takes nothing from the pipeline: in every
      interleaving its queues conserve their events and its entries are well formed. */
  lemma PipelineHolds(s: State, steps: seq<Step>)
    requires Initial(s)
    ensures var p := T.View(After(s, steps).threads);
            P.Conserved(p) && P.LineOk(p.main) && P.LineOk(p.notify) && P.LineOk(p.action) && P.Typed(p)
  {
    hide Run, T.View, T.Inv, P.Conserved, P.LineOk, P.Typed, P.Shape, P.SameVars;
    T.ViewOk(After(s, steps).threads);
  }
}
