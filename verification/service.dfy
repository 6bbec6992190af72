/** What the whole engine's machine does when one thread runs on its own: the processor stores an event and
    hands it on, and the query server answers a request from what the records hold. */
module Service {
  import opened Events
  import opened Memory
  import opened Dispatcher
  import opened Engine
  import T = Threads
  import P = Pipeline
  import Pub = Publication
  import Runs
  import ParsedEvents
  import Routing

  /** The twin store, as the records hold it. */
  ghost function Contents(records: seq<Pub.State>): (m: seq<Twin>)
    ensures |m| == |records|
  {
    seq(|records|, t requires 0 <= t < |records| => Twin(records[t].vars, records[t].status))
  }

  ghost predicate Whole(records: seq<Pub.State>) {
    |records| == MAX_TWINS && forall t :: 0 <= t < MAX_TWINS ==> |records[t].vars| == MAX_VARS_PER_TWINS
  }

  ghost predicate NoQuery(records: seq<Pub.State>) {
    forall t :: 0 <= t < |records| ==> records[t].reader.RIdle?
  }

  ghost predicate NoUpdate(records: seq<Pub.State>) {
    forall t :: 0 <= t < |records| ==> records[t].writer.WIdle?
  }

  // ---------------------------------------------------------------- the query server

  ghost function ReadTimes(s: State, n: nat): (r: State)
    requires |s.records| == MAX_TWINS
    ensures |r.records| == MAX_TWINS
  {
    if n == 0 then s else ReadNext(ReadTimes(s, n - 1))
  }

  lemma {:induction false} ReadMore(s: State, m: nat, n: nat)
    requires |s.records| == MAX_TWINS
    ensures ReadTimes(s, m + n) == ReadTimes(ReadTimes(s, m), n)
  {
    hide ReadNext;
    if n > 0 {
      ReadMore(s, m, n - 1);
    }
  }

  /** The loads of a twin's variables. */
  lemma {:induction false} Loading(s: State, t: nat, n: nat)
    requires |s.records| == MAX_TWINS && s.todo != [] && s.todo[0] == t < MAX_TWINS
    requires s.records[t].reader.RIdle? && |s.records[t].vars| == MAX_VARS_PER_TWINS && n <= MAX_VARS_PER_TWINS
    ensures var r := ReadTimes(s, 1 + n);
            && r == s.(records := s.records[t := s.records[t].(reader := r.records[t].reader)])
            && r.records[t].reader.RReading? && r.records[t].reader.query.status == s.records[t].status
            && r.records[t].reader.query.vals == s.records[t].vars[..n]
  {
    if n == 0 {
      assert ReadTimes(s, 0) == s && ReadTimes(s, 1) == ReadNext(s);
    } else {
      Loading(s, t, n - 1);
      var before := ReadTimes(s, n);
      assert ReadTimes(s, 1 + n) == ReadNext(before);
      assert s.records[t].vars[..n] == s.records[t].vars[..n - 1] + [s.records[t].vars[n - 1]];
    }
  }

  /** A reading shows the twin as the store has it. */
  ghost predicate Shown(r: Reading, t: nat, m: seq<Twin>) {
    if t < |m| then r.Known? && r.twin == t && r.query.status == m[t].status && r.query.vals == m[t].vars
    else r == Unknown(t)
  }

  ghost predicate AllShown(rs: seq<Reading>, ids: seq<nat>, m: seq<Twin>) {
    |rs| == |ids| && forall i :: 0 <= i < |ids| ==> Shown(rs[i], ids[i], m)
  }

  /** What a reader leaves as it was. */
  ghost predicate OnlyRead(s: State, r: State) {
    && r.threads == s.threads && r.next == s.next && r.requests == s.requests
    && Whole(r.records) && NoQuery(r.records) && Contents(r.records) == Contents(s.records)
    && forall t :: 0 <= t < |s.records| && t < |r.records| ==> r.records[t].writer == s.records[t].writer
  }

  lemma OneTwin(s: State) returns (n: nat, q: Reading)
    requires Whole(s.records) && NoQuery(s.records) && s.todo != []
    ensures Shown(q, s.todo[0], Contents(s.records))
    ensures var r := ReadTimes(s, n);
            OnlyRead(s, r) && r.todo == s.todo[1..] && r.reply == s.reply + [q] && r.replies == s.replies
  {
    var t := s.todo[0];
    if t >= MAX_TWINS {
      n, q := 1, Unknown(t);
      assert ReadTimes(s, 0) == s && ReadTimes(s, 1) == ReadNext(s);
    } else {
      n := 2 + MAX_VARS_PER_TWINS;
      Loading(s, t, MAX_VARS_PER_TWINS);
      var before := ReadTimes(s, 1 + MAX_VARS_PER_TWINS);
      q := Known(t, before.records[t].reader.query);
      assert s.records[t].vars[..MAX_VARS_PER_TWINS] == s.records[t].vars;
      assert ReadTimes(s, n) == ReadNext(before);
      OneAnswered(s, before, t, q.query);
    }
  }

  lemma OneAnswered(s: State, before: State, t: nat, q: Pub.Query)
    requires Whole(s.records) && NoQuery(s.records) && s.todo != [] && s.todo[0] == t < MAX_TWINS
    requires before == s.(records := s.records[t := s.records[t].(reader := Pub.RReading(q))])
    requires |q.vals| == MAX_VARS_PER_TWINS
    ensures var r := ReadNext(before);
            OnlyRead(s, r) && r.todo == s.todo[1..] && r.reply == s.reply + [Known(t, q)] && r.replies == s.replies
  {
    var r := ReadNext(before);
    assert forall o :: 0 <= o < MAX_TWINS && o != t ==> r.records[o] == s.records[o];
  }

  lemma {:induction false} EveryTwin(s: State) returns (n: nat, rs: seq<Reading>)
    requires Whole(s.records) && NoQuery(s.records)
    ensures AllShown(rs, s.todo, Contents(s.records))
    ensures var r := ReadTimes(s, n);
            OnlyRead(s, r) && r.todo == [] && r.reply == s.reply + rs && r.replies == s.replies
    decreases |s.todo|
  {
    hide ReadNext, Contents, Shown;
    if s.todo == [] {
      n, rs := 0, [];
    } else {
      var m, q := OneTwin(s);
      var first := ReadTimes(s, m);
      var k, more := EveryTwin(first);
      n, rs := m + k, [q] + more;
      ReadMore(s, m, k);
      assert s.reply + [q] + more == s.reply + rs;
    }
  }

  function ReadSteps(n: nat): seq<Step> {
    if n == 0 then [] else ReadSteps(n - 1) + [Read]
  }

  lemma {:induction false} RunReads(s: State, n: nat)
    requires Engine.Inv(s)
    ensures |s.records| == MAX_TWINS && Run(s, ReadSteps(n)) == ReadTimes(s, n)
  {
    hide Engine.Inv, ReadNext;
    InvShaped(s);
    if n > 0 {
      RunReads(s, n - 1);
      assert ReadSteps(n)[..|ReadSteps(n)| - 1] == ReadSteps(n - 1);
      InvShaped(Run(s, ReadSteps(n - 1)));
    }
  }

  lemma InvShaped(s: State)
    requires Engine.Inv(s)
    ensures Engine.Shaped(s) && |s.records| == MAX_TWINS
  {
  }

  lemma RecordsWhole(s: State)
    requires Engine.Inv(s)
    ensures Whole(s.records)
    ensures |s.requests| == |s.replies| ==> NoQuery(s.records)
  {
    hide T.Inv, WriterOk, StoredOk;
    forall t | 0 <= t < MAX_TWINS ensures |s.records[t].vars| == MAX_VARS_PER_TWINS {
      assert Pub.Inv(s.records[t]);
    }
  }

  lemma {:induction false} RunInTwo(s: State, a: seq<Step>, b: seq<Step>)
    requires Engine.Inv(s)
    ensures Run(s, a + b) == Run(Run(s, a), b)
    decreases |b|
  {
    hide Engine.Next, Engine.Inv;
    if b == [] {
      assert a + b == a;
    } else {
      var n := |a + b| - 1;
      assert (a + b)[..n] == a + b[..|b| - 1];
      RunInTwo(s, a, b[..|b| - 1]);
    }
  }

  lemma RunFirst(s: State, step: Step, rest: seq<Step>)
    requires Engine.Inv(s)
    ensures Engine.Shaped(s) && Engine.Inv(Engine.Next(s, step)) && Run(s, [step] + rest) == Run(Engine.Next(s, step), rest)
  {
    hide Engine.Next, Engine.Inv;
    InvShaped(s);
    StepKeeps(s, step);
    RunInTwo(s, [step], rest);
    assert [step][..0] == [];
  }

  /** A request that no other thread disturbs is answered with what the records hold, twin by twin, and
      changes nothing of it. */
  lemma AskAlone(s: State, ids: seq<nat>) returns (n: nat, rs: seq<Reading>)
    requires Engine.Inv(s) && |s.requests| == |s.replies| && (|ids| == 1 || ids == AllTwins())
    ensures AllShown(rs, ids, Contents(s.records))
    ensures var r := Run(s, [Ask(ids)] + ReadSteps(n));
            && r.requests == s.requests + [ids] && r.replies == s.replies + [rs]
            && Contents(r.records) == Contents(s.records) && r.threads == s.threads
  {
    hide Engine.Inv, ReadNext, AllShown, Run;
    RecordsWhole(s);
    InvShaped(s);
    var asked := Engine.Next(s, Ask(ids));
    var m, qs := EveryTwin(asked);
    n, rs := m + 1, qs;
    RunFirst(s, Ask(ids), ReadSteps(n));
    RunReads(asked, n);
    ReplySent(ReadTimes(asked, m));
    assert [] + rs == rs;
  }

  lemma ReplySent(s: State)
    requires |s.records| == MAX_TWINS && s.todo == [] && |s.requests| > |s.replies|
    ensures ReadNext(s) == s.(replies := s.replies + [s.reply], reply := [])
  {
  }

  /** Right after a deletion the reply shows that twin gone, with its values, and every other as it was. */
  lemma DeleteThenAsk(s: State, t: nat, ids: seq<nat>) returns (n: nat, rs: seq<Reading>)
    requires Engine.Inv(s) && |s.requests| == |s.replies| && (|ids| == 1 || ids == AllTwins()) && t < MAX_TWINS
    ensures |s.records| == MAX_TWINS
    ensures AllShown(rs, ids, Contents(s.records)[t := Contents(s.records)[t].(status := STATUS_GONE)])
    ensures Run(s, [Delete(t), Ask(ids)] + ReadSteps(n)).replies == s.replies + [rs]
  {
    hide Engine.Inv, AllShown, Run;
    InvShaped(s);
    RecordsWhole(s);
    RunFirst(s, Delete(t), []);
    var gone := Engine.Next(s, Delete(t));
    n, rs := AskAlone(gone, ids);
    RunFirst(s, Delete(t), [Ask(ids)] + ReadSteps(n));
    assert [Delete(t)] + ([Ask(ids)] + ReadSteps(n)) == [Delete(t), Ask(ids)] + ReadSteps(n);
    assert Contents(gone.records) == Contents(s.records)[t := Contents(s.records)[t].(status := STATUS_GONE)];
  }

  // ---------------------------------------------------------------- the processor

  function WriteSteps(n: nat): seq<Step> {
    if n == 0 then [] else WriteSteps(n - 1) + [Write]
  }

  lemma {:induction false} WriteMore(m: nat, n: nat)
    ensures WriteSteps(m + n) == WriteSteps(m) + WriteSteps(n)
  {
    if n > 0 {
      WriteMore(m, n - 1);
    } else {
      assert WriteSteps(m) + [] == WriteSteps(m);
    }
  }

  /** What the processor leaves as it was while it stores. */
  ghost predicate OnlyStored(s: State, r: State) {
    && r.threads == s.threads && r.todo == s.todo && r.reply == s.reply
    && r.requests == s.requests && r.replies == s.replies
    && Whole(r.records) && NoUpdate(r.records)
    && forall t :: 0 <= t < |s.records| && t < |r.records| ==>
         r.records[t].reader == s.records[t].reader && r.records[t].answers == s.records[t].answers
  }

  lemma WriteOne(s: State)
    requires Engine.Inv(s)
    ensures Engine.Shaped(s) && Engine.Inv(WriteNext(s)) && Run(s, WriteSteps(1)) == WriteNext(s)
  {
    hide Engine.Inv, WriteNext, Run;
    RunFirst(s, Write, []);
    assert WriteSteps(0) == [] && WriteSteps(1) == [Write] + [];
    RunNothing(WriteNext(s));
  }

  lemma RunNothing(s: State)
    requires Engine.Inv(s)
    ensures Run(s, []) == s
  {
  }

  /** The three stores of a variable in the store. */
  lemma ThreeStores(s: State, t: nat, u: Update)
    requires Engine.Shaped(s) && Whole(s.records) && NoUpdate(s.records) && Storing(s.threads)
    requires s.next < |s.threads.held[0].payload.updates|
    requires u == s.threads.held[0].payload.updates[s.next] && t == s.threads.held[0].header.twinId
    requires InRange(t, Cell(u.varId))
    ensures var a := WriteNext(s);
            var b := WriteNext(a);
            var c := WriteNext(b);
            && OnlyStored(s, c) && c.next == s.next + 1
            && Contents(c.records) == StoreVar(Contents(s.records), t, Cell(u.varId), u.bits)
  {
    hide P.Shape;
    var a := WriteNext(s);
    var b := WriteNext(a);
    var c := WriteNext(b);
    var r := s.records[t];
    assert a.records == s.records[t := r.(vars := r.vars[Cell(u.varId) := u.bits], writer := Pub.WStatus,
                                          stores := a.records[t].stores)];
    assert b.records == s.records[t := a.records[t].(status := STATUS_OK, writer := Pub.WTime,
                                                     marks := b.records[t].marks, completed := b.records[t].completed)];
    assert c.records == s.records[t := b.records[t].(writer := Pub.WIdle)];
  }

  /** The next update is stored. */
  ghost predicate OneStored(s: State, r: State) {
    && Whole(s.records) && Storing(s.threads) && s.next < |s.threads.held[0].payload.updates|
    && OnlyStored(s, r) && r.next == s.next + 1
    && var u := s.threads.held[0].payload.updates[s.next];
       Contents(r.records) == StoreVar(Contents(s.records), s.threads.held[0].header.twinId, Cell(u.varId), u.bits)
  }

  /** The first `k` updates are stored. */
  ghost predicate SomeStored(s: State, r: State, k: nat) {
    && Whole(s.records) && Storing(s.threads) && k <= |s.threads.held[0].payload.updates|
    && OnlyStored(s, r) && r.next == k
    && Contents(r.records)
       == ApplyUpdates(Contents(s.records), s.threads.held[0].header.twinId, s.threads.held[0].payload.updates[..k])
  }

  lemma OneUpdate(s: State) returns (n: nat)
    requires Engine.Inv(s) && NoUpdate(s.records) && Storing(s.threads)
    requires s.next < |s.threads.held[0].payload.updates|
    ensures OneStored(s, Run(s, WriteSteps(n)))
  {
    hide Engine.Inv, P.Shape, Run, WriteSteps, StoreStep, Pub.Next;
    RecordsWhole(s);
    var u, t := s.threads.held[0].payload.updates[s.next], s.threads.held[0].header.twinId;
    WriteOne(s);
    if InRange(t, Cell(u.varId)) {
      hide WriteNext, Contents, StoreVar;
      n := 3;
      ThreeStores(s, t, u);
      WriteOne(WriteNext(s));
      WriteOne(WriteNext(WriteNext(s)));
      WriteMore(1, 1);
      WriteMore(2, 1);
      RunInTwo(s, WriteSteps(1), WriteSteps(1));
      RunInTwo(s, WriteSteps(2), WriteSteps(1));
    } else {
      n := 1;
    }
  }

  lemma {:induction false} Updating(s: State, k: nat) returns (n: nat)
    requires Engine.Inv(s) && NoUpdate(s.records) && Storing(s.threads) && s.next == 0
    requires k <= |s.threads.held[0].payload.updates|
    ensures SomeStored(s, Run(s, WriteSteps(n)), k)
  {
    hide Engine.Inv, P.Shape, Run, WriteNext, Contents, StoreVar;
    RecordsWhole(s);
    n := 0;
    if k == 0 {
      RunNothing(s);
    } else {
      var m := Updating(s, k - 1);
      var before := Run(s, WriteSteps(m));
      var one := OneUpdate(before);
      n := m + one;
      WriteMore(m, one);
      RunInTwo(s, WriteSteps(m), WriteSteps(one));
      assert s.threads.held[0].payload.updates[..k][..k - 1] == s.threads.held[0].payload.updates[..k - 1];
    }
  }

  lemma ContentsShaped(records: seq<Pub.State>)
    requires Whole(records)
    ensures Memory.Shaped(Contents(records))
  {
  }

  lemma Dispatched(s: State)
    requires Engine.Inv(s) && s.threads.held != []
    requires !Storing(s.threads) || s.next >= |s.threads.held[0].payload.updates|
    ensures Engine.Shaped(s)
    ensures WriteNext(s) == s.(threads := T.Next(s.threads, T.Own(P.Dispatch)), next := 0)
  {
    hide Engine.Inv, P.Shape;
    InvShaped(s);
  }

  lemma HeldConsistent(s: State)
    requires Engine.Inv(s) && s.threads.held != []
    ensures Consistent(s.threads.held[0])
    ensures Storing(s.threads) <==> s.threads.held[0].header.kind == EVENT_UPDATE
  {
    hide T.Inv, Records, WriterOk, StoredOk, ReaderOk;
    assert s.threads.held[0] in s.threads.held;
  }

  /** The processor on its own stores all of the event in its hands, exactly as one pass over the updates
      would, and hands it on. */
  lemma StoreAlone(s: State) returns (n: nat)
    requires Engine.Inv(s) && NoUpdate(s.records) && s.threads.held != [] && s.next == 0
    ensures Whole(s.records) && Consistent(s.threads.held[0]) && Memory.Shaped(Contents(s.records)) && Engine.Shaped(s)
    ensures var r := Run(s, WriteSteps(n));
            && r.threads == T.Next(s.threads, T.Own(P.Dispatch)) && r.threads.held == []
            && Contents(r.records) == P.Stored(Contents(s.records), s.threads.held[0])
            && r.requests == s.requests && r.replies == s.replies && NoUpdate(r.records)
  {
    hide Engine.Inv, P.Shape, Run, WriteNext, Contents, T.Next, ApplyUpdates;
    RecordsWhole(s);
    ContentsShaped(s.records);
    HeldConsistent(s);
    InvShaped(s);
    var e := s.threads.held[0];
    n := 0;
    RunNothing(s);
    if Storing(s.threads) {
      n := Updating(s, |e.payload.updates|);
      assert e.payload.updates[..|e.payload.updates|] == e.payload.updates;
    }
    var before := Run(s, WriteSteps(n));
    Dispatched(before);
    WriteOne(before);
    WriteMore(n, 1);
    RunInTwo(s, WriteSteps(n), WriteSteps(1));
    n := n + 1;
    NothingHeld(s.threads);
  }

  lemma NothingHeld(c: T.State)
    requires P.Shape(T.Locals(c)) && c.held != []
    ensures T.Next(c, T.Own(P.Dispatch)).held == []
  {
    hide P.BatchOf, P.Stored;
  }

  // ---------------------------------------------------------------- between events

  lemma {:induction false} LatestApplied(m: seq<Twin>, stores: seq<Pub.Store>, t: nat, us: seq<Update>, v: nat)
    requires Memory.Shaped(m) && t < MAX_TWINS && v < MAX_VARS_PER_TWINS && m[t].vars[v] == Pub.Latest(stores, v)
    ensures ApplyUpdates(m, t, us)[t].vars[v] == Pub.Latest(stores + StoresOf(us), v)
    decreases |us|
  {
    if us == [] {
      assert stores + [] == stores;
    } else {
      var front, u := us[..|us| - 1], us[|us| - 1];
      LatestApplied(m, stores, t, front, v);
      var before := stores + StoresOf(front);
      if Cell(u.varId) < MAX_VARS_PER_TWINS {
        var x := Pub.Store(Cell(u.varId), u.bits);
        assert stores + StoresOf(us) == before + [x];
        Pub.LatestThen(before, x, v);
      } else {
        assert stores + StoresOf(us) == before;
      }
    }
  }

  lemma StoresMatch(m: seq<Twin>, stores: seq<Pub.Store>, e: Event, t: nat, v: nat)
    requires Memory.Shaped(m) && t < MAX_TWINS && v < MAX_VARS_PER_TWINS && m[t].vars[v] == Pub.Latest(stores, v)
    requires Consistent(e)
    ensures P.Stored(m, e)[t].vars[v] == Pub.Latest(stores + StoresFor(e, t), v)
  {
    hide ApplyUpdates, StoresOf, Pub.Latest;
    if e.header.kind == EVENT_UPDATE {
      if e.header.twinId == t {
        LatestApplied(m, stores, t, e.payload.updates, v);
      } else {
        Runs.OtherTwin(m, e.header.twinId, e.payload.updates, t);
        assert stores + [] == stores;
      }
    } else {
      assert stores + [] == stores;
    }
  }

  lemma {:induction false} ProcessedMatch(ps: seq<P.Processed>, t: nat, v: nat)
    requires P.Sound(ps) && t < MAX_TWINS && v < MAX_VARS_PER_TWINS
    ensures P.AllStored(Routing.EmptyStore(), ps)[t].vars[v] == Pub.Latest(TwinStores(P.Taken(ps), t), v)
    decreases |ps|
  {
    hide P.Stored, StoresFor, ParsedEvents.Proper;
    if ps != [] {
      var front, p := ps[..|ps| - 1], ps[|ps| - 1];
      ProcessedMatch(front, t, v);
      assert p in ps;
      P.ProperConsistent(p.event);
      TwinStoresThen(P.Taken(front), p.event, t);
      StoresMatch(P.AllStored(Routing.EmptyStore(), front), TwinStores(P.Taken(front), t), p.event, t, v);
    }
  }

  /** Whenever the processor has no event in its hands, the records hold what the pipeline's store holds: the
      single stores and the whole ones come to the same values. */
  lemma RecordsMatch(s: State, steps: seq<Step>)
    requires Engine.Initial(s) && After(s, steps).threads.held == []
    ensures var r := After(s, steps);
            P.SameVars(Contents(r.records), r.threads.memory)
  {
    hide Run, Engine.Inv, P.AllStored, P.Taken, TwinStores, Pub.Latest;
    var r := After(s, steps);
    RecordsWhole(r);
    ContentsShaped(r.records);
    MemoryIs(r);
    forall t | 0 <= t < MAX_TWINS
      ensures r.records[t].vars == r.threads.memory[t].vars
    {
      forall v | 0 <= v < MAX_VARS_PER_TWINS
        ensures r.records[t].vars[v] == r.threads.memory[t].vars[v]
      {
        RecordIs(r, t, v);
        ProcessedMatch(r.threads.processed, t, v);
      }
    }
  }

  lemma MemoryIs(s: State)
    requires Engine.Inv(s)
    ensures P.Sound(s.threads.processed)
    ensures P.SameVars(s.threads.memory, P.AllStored(Routing.EmptyStore(), s.threads.processed))
  {
    hide Records, WriterOk, StoredOk, ReaderOk, T.RingOk, T.LineOf, P.LineOk, P.Typed, P.AllStored, P.SameVars;
  }

  lemma RecordIs(s: State, t: nat, v: nat)
    requires Engine.Inv(s) && s.threads.held == [] && t < MAX_TWINS && v < MAX_VARS_PER_TWINS
    ensures |s.records| == MAX_TWINS && |s.records[t].vars| == MAX_VARS_PER_TWINS
    ensures s.records[t].vars[v] == Pub.Latest(TwinStores(P.Taken(s.threads.processed), t), v)
  {
    hide T.Inv, P.Shape, WriterOk, ReaderOk, Pub.Latest, TwinStores, P.Taken;
    assert Pub.Inv(s.records[t]);
    assert Partial(s, t) == [];
    assert s.records[t].stores == TwinStores(P.Taken(s.threads.processed), t);
  }
}
