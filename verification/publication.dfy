/** One twin's record while the processor updates it and the API thread reads and deletes it, one atomic
    store or load at a time. An update stores the value, then the status, then the time; a query loads
    the status and then the variables in order; a deletion is one store of the status. */
module Publication {
  import opened Events
  import opened Memory

  datatype Writer = WIdle | WStatus | WTime

  datatype Store = Store(varId: nat, bits: nat)

  datatype Mark = Present | Gone

  /** A query in progress or answered. The last three fields are history: the completed updates and the
      status stores at the moment of the status load, and how many values had been stored when each
      variable was loaded. */
  datatype Query = Query(status: nat, vals: seq<nat>, completed: nat, marks: seq<Mark>, at: seq<nat>)

  datatype Reader = RIdle | RReading(query: Query)

  datatype State = State(
    vars: seq<nat>, status: nat,
    writer: Writer, reader: Reader,
    stores: seq<Store>,       // every value store, in order
    marks: seq<Mark>,         // every status store, in order
    completed: nat,           // updates whose status store has been made
    answers: seq<Query>)

  datatype Step =
    | StoreVar(v: nat, bits: nat)
    | StoreStatus
    | StoreTime
    | LoadStatus
    | LoadVar
    | Answer
    | Delete

  /** One step; a step its thread is not about to take changes nothing. */
  function Next(s: State, step: Step): State {
    match step
    case StoreVar(v, bits) =>
      if s.writer.WIdle? && v < |s.vars|
      then s.(vars := s.vars[v := bits], writer := WStatus, stores := s.stores + [Store(v, bits)]) else s
    case StoreStatus =>
      if s.writer.WStatus?
      then s.(status := STATUS_OK, writer := WTime, marks := s.marks + [Present], completed := s.completed + 1) else s
    case StoreTime => if s.writer.WTime? then s.(writer := WIdle) else s
    case LoadStatus =>
      if s.reader.RIdle? then s.(reader := RReading(Query(s.status, [], s.completed, s.marks, []))) else s
    case LoadVar =>
      if s.reader.RReading? && |s.reader.query.vals| < |s.vars|
      then
        var q := s.reader.query;
        s.(reader := RReading(q.(vals := q.vals + [s.vars[|q.vals|]], at := q.at + [|s.stores|])))
      else s
    case Answer =>
      if s.reader.RReading? && |s.reader.query.vals| == |s.vars|
      then s.(reader := RIdle, answers := s.answers + [s.reader.query]) else s
    case Delete =>
      if s.reader.RIdle? then s.(status := STATUS_GONE, marks := s.marks + [Gone]) else s
  }

  function Run(s: State, steps: seq<Step>): State
    decreases |steps|
  {
    if steps == [] then s else Next(Run(s, steps[..|steps| - 1]), steps[|steps| - 1])
  }

  /** After twins_memory_init. */
  ghost predicate Initial(s: State) {
    && |s.vars| == MAX_VARS_PER_TWINS && (forall v :: 0 <= v < |s.vars| ==> s.vars[v] == 0)
    && s.status == STATUS_GONE && s.writer == WIdle && s.reader == RIdle
    && s.stores == [] && s.marks == [] && s.completed == 0 && s.answers == []
  }

  // ---------------------------------------------------------------- the invariant

  /** The value of a variable after some stores. */
  function Latest(stores: seq<Store>, v: nat): nat
    decreases |stores|
  {
    if stores == [] then 0
    else if stores[|stores| - 1].varId == v then stores[|stores| - 1].bits
    else Latest(stores[..|stores| - 1], v)
  }

  function StatusOf(marks: seq<Mark>): nat {
    if marks != [] && marks[|marks| - 1] == Present then STATUS_OK else STATUS_GONE
  }

  /** Some status store is an update's exactly when some update is completed. */
  function Completions(marks: seq<Mark>): nat
    decreases |marks|
  {
    if marks == [] then 0
    else Completions(marks[..|marks| - 1]) + (if marks[|marks| - 1] == Present then 1 else 0)
  }

  ghost predicate QueryOk(q: Query, stores: seq<Store>) {
    && q.status == StatusOf(q.marks) && q.completed == Completions(q.marks)
    && |q.at| == |q.vals| <= MAX_VARS_PER_TWINS && q.completed <= |stores|
    && (forall i :: 0 <= i < |q.at| ==> q.completed <= q.at[i] <= |stores|)
    && (forall i :: 0 <= i < |q.at| ==> q.vals[i] == Latest(stores[..q.at[i]], i))
    && (forall i, j :: 0 <= i < j < |q.at| ==> q.at[i] <= q.at[j])
  }

  ghost predicate Inv(s: State) {
    && |s.vars| == MAX_VARS_PER_TWINS
    && (forall v :: 0 <= v < |s.vars| ==> s.vars[v] == Latest(s.stores, v))
    && (forall k :: 0 <= k < |s.stores| ==> s.stores[k].varId < MAX_VARS_PER_TWINS)
    && s.status == StatusOf(s.marks) && s.completed == Completions(s.marks)
    && |s.stores| == s.completed + (if s.writer.WStatus? then 1 else 0)
    && (s.reader.RReading? ==> QueryOk(s.reader.query, s.stores))
    && (forall q :: q in s.answers ==> QueryOk(q, s.stores) && |q.vals| == MAX_VARS_PER_TWINS)
  }

  lemma MoreStores(q: Query, stores: seq<Store>, x: Store)
    requires QueryOk(q, stores)
    ensures QueryOk(q, stores + [x])
  {
    forall i | 0 <= i < |q.at|
      ensures (stores + [x])[..q.at[i]] == stores[..q.at[i]]
    {
    }
  }

  lemma LatestThen(stores: seq<Store>, x: Store, v: nat)
    ensures Latest(stores + [x], v) == if x.varId == v then x.bits else Latest(stores, v)
  {
    assert (stores + [x])[..|stores + [x]| - 1] == stores;
  }

  lemma MarksThen(marks: seq<Mark>, m: Mark)
    ensures Completions(marks + [m]) == Completions(marks) + (if m == Present then 1 else 0)
    ensures StatusOf(marks + [m]) == if m == Present then STATUS_OK else STATUS_GONE
  {
    assert (marks + [m])[..|marks + [m]| - 1] == marks;
  }

  lemma StoreVarKeeps(s: State, v: nat, bits: nat)
    requires Inv(s)
    ensures Inv(Next(s, StoreVar(v, bits)))
  {
    hide QueryOk, Latest, Completions, StatusOf;
    if s.writer.WIdle? && v < |s.vars| {
      var x := Store(v, bits);
      forall i: nat
        ensures Latest(s.stores + [x], i) == if i == v then bits else Latest(s.stores, i)
      {
        LatestThen(s.stores, x, i);
      }
      if s.reader.RReading? {
        MoreStores(s.reader.query, s.stores, x);
      }
      forall q | q in s.answers
        ensures QueryOk(q, s.stores + [x])
      {
        MoreStores(q, s.stores, x);
      }
    }
  }

  lemma StepKeepsInv(s: State, step: Step)
    requires Inv(s)
    ensures Inv(Next(s, step))
  {
    hide Latest, Completions, StatusOf;
    match step
    case StoreVar(v, bits) => StoreVarKeeps(s, v, bits);
    case StoreStatus => MarksThen(s.marks, Present);
    case Delete => MarksThen(s.marks, Gone);
    case LoadVar =>
      assert s.stores[..|s.stores|] == s.stores;
    case _ =>
  }

  lemma {:induction false} RunKeepsInv(s: State, steps: seq<Step>)
    requires Initial(s)
    ensures Inv(Run(s, steps))
    decreases |steps|
  {
    if steps != [] {
      RunKeepsInv(s, steps[..|steps| - 1]);
      StepKeepsInv(Run(s, steps[..|steps| - 1]), steps[|steps| - 1]);
    }
  }

  // ---------------------------------------------------------------- main results

  /** `bits` is the value of update `k` or of a later update of the same variable. */
  ghost predicate AtLeastAsNew(stores: seq<Store>, k: nat, bits: nat) {
    k < |stores| && exists j :: k <= j < |stores| && stores[j].varId == stores[k].varId && stores[j].bits == bits
  }

  lemma {:induction false} LatestIsNew(stores: seq<Store>, m: nat, k: nat)
    requires k < m <= |stores|
    ensures AtLeastAsNew(stores, k, Latest(stores[..m], stores[k].varId))
  {
    var last := stores[..m][m - 1];
    assert last == stores[m - 1];
    if last.varId != stores[k].varId {
      assert stores[..m][..m - 1] == stores[..m - 1];
      LatestIsNew(stores, m - 1, k);
    }
  }

  /** What an answer promises, against all the value stores made so far: for every update completed before
      its status load it shows that update's value or a newer one of the same variable. It reports the twin
      present exactly when the last status store before the load was an update's, and then there is such an
      update; otherwise it reports it gone. There is no third status. */
  ghost predicate Published(q: Query, stores: seq<Store>) {
    && |q.vals| == MAX_VARS_PER_TWINS && q.status in {STATUS_OK, STATUS_GONE}
    && (q.status == STATUS_OK <==> q.marks != [] && q.marks[|q.marks| - 1] == Present)
    && q.completed <= |stores|
    && (forall k :: 0 <= k < q.completed ==>
         stores[k].varId < MAX_VARS_PER_TWINS && AtLeastAsNew(stores, k, q.vals[stores[k].varId]))
    && (q.status == STATUS_OK ==>
         exists k :: 0 <= k < q.completed && AtLeastAsNew(stores, k, q.vals[stores[k].varId]))
  }

  lemma AnswerPublished(s: State, q: Query)
    requires Inv(s) && q in s.answers
    ensures Published(q, s.stores)
  {
    hide AtLeastAsNew;
    var stores := s.stores;
    forall k | 0 <= k < q.completed
      ensures stores[k].varId < MAX_VARS_PER_TWINS && AtLeastAsNew(stores, k, q.vals[stores[k].varId])
    {
      LatestIsNew(stores, q.at[stores[k].varId], k);
    }
    if q.status == STATUS_OK {
      assert q.completed >= 1;
      assert AtLeastAsNew(stores, 0, q.vals[stores[0].varId]);
    }
  }

  /** In every interleaving. */
  lemma AnswersArePublished(s: State, steps: seq<Step>, q: Query)
    requires Initial(s) && q in Run(s, steps).answers
    ensures Published(q, Run(s, steps).stores)
  {
    hide Run, Published;
    RunKeepsInv(s, steps);
    AnswerPublished(Run(s, steps), q);
  }

  /** Variables are read in order: a later one is never older than an earlier one. */
  lemma AnswersAreOrdered(s: State, steps: seq<Step>, q: Query, i: nat, j: nat)
    requires Initial(s) && q in Run(s, steps).answers && i < j < MAX_VARS_PER_TWINS
    ensures var stores := Run(s, steps).stores;
            |q.at| == |q.vals| == MAX_VARS_PER_TWINS && q.at[i] <= q.at[j] <= |stores|
            && q.vals[i] == Latest(stores[..q.at[i]], i) && q.vals[j] == Latest(stores[..q.at[j]], j)
  {
    hide Run, Latest;
    RunKeepsInv(s, steps);
  }

  ghost predicate NoUpdate(steps: seq<Step>) {
    forall step :: step in steps ==> !step.StoreVar?
  }

  lemma {:induction false} StaysGone(s: State, steps: seq<Step>)
    requires s.status == STATUS_GONE && !s.writer.WStatus? && NoUpdate(steps)
    ensures Run(s, steps).status == STATUS_GONE && !Run(s, steps).writer.WStatus?
    decreases |steps|
  {
    if steps != [] {
      StaysGone(s, steps[..|steps| - 1]);
      assert steps[|steps| - 1] in steps;
    }
  }

  /** A deleted twin stays deleted until the next update begins exactly when no update was between its
      value store and its status store at the deletion. */
  lemma DeletionLasts(s: State)
    requires s.reader.RIdle?
    ensures (forall steps :: NoUpdate(steps) ==> Run(Next(s, Delete), steps).status == STATUS_GONE)
       <==> !s.writer.WStatus?
  {
    var d := Next(s, Delete);
    if s.writer.WStatus? {
      var one := [StoreStatus];
      assert one[..0] == [] && Run(d, []) == d;
      assert Run(d, one) == Next(d, StoreStatus);
      assert NoUpdate(one) && Run(d, one).status == STATUS_OK;
    } else {
      forall steps | NoUpdate(steps)
        ensures Run(d, steps).status == STATUS_GONE
      {
        StaysGone(d, steps);
      }
    }
  }

  // ---------------------------------------------------------------- an update, a query on its own

  lemma {:induction false} RunInTwo(s: State, a: seq<Step>, b: seq<Step>)
    ensures Run(s, a + b) == Run(Run(s, a), b)
    decreases |b|
  {
    hide Next;
    if b == [] {
      assert a + b == a;
    } else {
      assert (a + b)[..|a + b| - 1] == a + b[..|b| - 1];
      RunInTwo(s, a, b[..|b| - 1]);
    }
  }

  lemma RunThen(s: State, a: seq<Step>, step: Step)
    ensures Run(s, a + [step]) == Next(Run(s, a), step) && Run(s, []) == s
  {
    hide Next;
    assert (a + [step])[..|a + [step]| - 1] == a;
  }

  function LoadVars(n: nat): seq<Step> {
    if n == 0 then [] else LoadVars(n - 1) + [LoadVar]
  }

  /** The steps of one update and of one query. */
  function UpdateSteps(v: nat, bits: nat): seq<Step> {
    [StoreVar(v, bits), StoreStatus, StoreTime]
  }

  function QuerySteps(): seq<Step> {
    [LoadStatus] + LoadVars(MAX_VARS_PER_TWINS) + [Answer]
  }

  lemma {:induction false} VarsLoaded(s: State, n: nat)
    requires s.reader.RReading? && s.reader.query.vals == [] && n <= |s.vars|
    ensures var r := Run(s, LoadVars(n));
            && r == s.(reader := r.reader) && r.reader.RReading?
            && r.reader.query.status == s.reader.query.status && r.reader.query.vals == s.vars[..n]
  {
    hide Run;
    if n == 0 {
      RunThen(s, [], LoadVar);
    } else {
      VarsLoaded(s, n - 1);
      RunThen(s, LoadVars(n - 1), LoadVar);
      assert s.vars[..n] == s.vars[..n - 1] + [s.vars[n - 1]];
    }
  }

  /** Whatever the processor is in the middle of, a query on its own runs to its end and shows the record as it
      is: its status, and every variable at its place. */
  lemma QueryAlone(s: State)
    requires s.reader.RIdle? && |s.vars| == MAX_VARS_PER_TWINS
    ensures var r := Run(s, QuerySteps());
            && r == s.(answers := r.answers) && |r.answers| == |s.answers| + 1 && r.answers[..|s.answers|] == s.answers
            && r.answers[|s.answers|].status == s.status && r.answers[|s.answers|].vals == s.vars
  {
    hide Run;
    RunThen(s, [], LoadStatus);
    assert [] + [LoadStatus] == [LoadStatus];
    var loading := Run(s, [LoadStatus]);
    RunInTwo(s, [LoadStatus], LoadVars(MAX_VARS_PER_TWINS));
    VarsLoaded(loading, MAX_VARS_PER_TWINS);
    RunThen(s, [LoadStatus] + LoadVars(MAX_VARS_PER_TWINS), Answer);
    assert s.vars[..MAX_VARS_PER_TWINS] == s.vars;
  }

  /** Whatever the query server is in the middle of, an update on its own runs to its end, changes its variable
      and no other, and marks the twin present. */
  lemma UpdateAlone(s: State, v: nat, bits: nat)
    requires s.writer.WIdle? && v < |s.vars|
    ensures var r := Run(s, UpdateSteps(v, bits));
            && r.writer.WIdle? && r.reader == s.reader && r.answers == s.answers
            && r.vars == s.vars[v := bits] && r.status == STATUS_OK
            && r.stores == s.stores + [Store(v, bits)] && r.marks == s.marks + [Present]
  {
    hide Run;
    RunThen(s, [], StoreVar(v, bits));
    RunThen(s, [StoreVar(v, bits)], StoreStatus);
    RunThen(s, [StoreVar(v, bits), StoreStatus], StoreTime);
    assert [] + [StoreVar(v, bits)] == [StoreVar(v, bits)];
    assert [StoreVar(v, bits)] + [StoreStatus] == [StoreVar(v, bits), StoreStatus];
    assert [StoreVar(v, bits), StoreStatus] + [StoreTime] == UpdateSteps(v, bits);
  }

  /** A query after a deletion, with nothing between, shows the twin gone and its values kept. */
  lemma GoneAtOnce(s: State)
    requires s.reader.RIdle? && |s.vars| == MAX_VARS_PER_TWINS
    ensures var r := Run(s, [Delete] + QuerySteps());
            && r.vars == s.vars && |r.answers| == |s.answers| + 1
            && r.answers[|s.answers|].status == STATUS_GONE && r.answers[|s.answers|].vals == s.vars
  {
    hide Run;
    RunThen(s, [], Delete);
    assert [] + [Delete] == [Delete];
    RunInTwo(s, [Delete], QuerySteps());
    QueryAlone(Next(s, Delete));
  }
}
