/** What dispatching an event means for the store and for the two outgoing batches. */
module Routing {
  import opened Events
  import opened Memory
  import opened Rules
  import opened Dispatcher

  // ---------------------------------------------------------------- the store

  /** The position of the last update addressed to cell `v`, or -1. */
  function LastWrite(us: seq<Update>, v: nat): (k: int)
    ensures -1 <= k < |us| && (k >= 0 ==> Cell(us[k].varId) == v)
    ensures forall j :: k < j < |us| ==> Cell(us[j].varId) != v
    decreases |us|
  {
    if us == [] then -1
    else if Cell(us[|us| - 1].varId) == v then |us| - 1
    else LastWrite(us[..|us| - 1], v)
  }

  ghost predicate Touches(us: seq<Update>) {
    exists i :: 0 <= i < |us| && Cell(us[i].varId) < MAX_VARS_PER_TWINS
  }

  /** Last writer wins: an addressed cell holds the value of the last update to it, everything else is
      untouched, and the twin is marked present exactly when something was written. */
  lemma {:induction false} LastWriterWins(m: seq<Twin>, t: nat, us: seq<Update>)
    requires Memory.Shaped(m) && t < MAX_TWINS
    ensures var r := ApplyUpdates(m, t, us);
            && (forall t' :: 0 <= t' < MAX_TWINS && t' != t ==> r[t'] == m[t'])
            && (forall v :: 0 <= v < MAX_VARS_PER_TWINS ==>
                 r[t].vars[v] == if LastWrite(us, v) >= 0 then us[LastWrite(us, v)].bits else m[t].vars[v])
            && r[t].status == (if Touches(us) then STATUS_OK else m[t].status)
    decreases |us|
  {
    if us != [] {
      var front := us[..|us| - 1];
      LastWriterWins(m, t, front);
      assert Touches(us) <==> Touches(front) || Cell(us[|us| - 1].varId) < MAX_VARS_PER_TWINS by {
        TouchesGrows(us);
      }
      var u := us[|us| - 1];
      assert forall v: nat ::
          LastWrite(us, v) == (if Cell(u.varId) == v then |us| - 1 else LastWrite(front, v));
    }
  }

  lemma TouchesGrows(us: seq<Update>)
    requires us != []
    ensures Touches(us) <==> Touches(us[..|us| - 1]) || Cell(us[|us| - 1].varId) < MAX_VARS_PER_TWINS
  {
    var front := us[..|us| - 1];
    assert forall i :: 0 <= i < |front| ==> front[i] == us[i];
  }

  /** Outside the store nothing is written. */
  lemma {:induction false} UnknownTwin(m: seq<Twin>, t: nat, us: seq<Update>)
    requires Memory.Shaped(m) && t >= MAX_TWINS
    ensures ApplyUpdates(m, t, us) == m
    decreases |us|
  {
    if us != [] {
      UnknownTwin(m, t, us[..|us| - 1]);
    }
  }

  /** The store the identifiers ask for, without the cut to 8 bits. */
  function Intended(m: seq<Twin>, t: nat, us: seq<Update>): (r: seq<Twin>)
    requires Memory.Shaped(m)
    ensures Memory.Shaped(r)
    decreases |us|
  {
    if us == [] then m
    else StoreVar(Intended(m, t, us[..|us| - 1]), t, us[|us| - 1].varId, us[|us| - 1].bits)
  }

  /** An identifier beyond the table that the cut moves into it. */
  predicate Aliases(varId: nat) {
    varId >= 256 && Cell(varId) < MAX_VARS_PER_TWINS
  }

  function EmptyStore(): (m: seq<Twin>)
    ensures Memory.Shaped(m)
  {
    seq(MAX_TWINS, _ => Twin(seq(MAX_VARS_PER_TWINS, _ => 0), STATUS_GONE))
  }

  /** A value reaches the cell its identifier names, in every store, exactly when the identifier does not
      alias: identifier 256 would overwrite variable 0. */
  lemma StoredWhereNamed(varId: nat, t: nat)
    requires t < MAX_TWINS
    ensures (forall m, bits :: Memory.Shaped(m) ==> StoreVar(m, t, Cell(varId), bits) == StoreVar(m, t, varId, bits))
       <==> !Aliases(varId)
  {
    if Aliases(varId) {
      assert StoreVar(EmptyStore(), t, Cell(varId), 0)[t].status != StoreVar(EmptyStore(), t, varId, 0)[t].status;
    }
  }

  lemma {:induction false} AppliedAsIntended(m: seq<Twin>, t: nat, us: seq<Update>)
    requires Memory.Shaped(m) && forall u :: u in us ==> !Aliases(u.varId)
    ensures ApplyUpdates(m, t, us) == Intended(m, t, us)
    decreases |us|
  {
    if us != [] {
      assert us[|us| - 1] in us;
      AppliedAsIntended(m, t, us[..|us| - 1]);
    }
  }

  // ---------------------------------------------------------------- the batches

  /** The batch is the order-preserving filter of the updates by rule: `ps` are its positions. */
  lemma {:induction false} ChosenIsFilter(table: Table, t: nat, us: seq<Update>, action: Action) returns (ps: seq<nat>)
    requires Rules.Shaped(table)
    ensures |ps| == |Chosen(table, t, us, action)|
    ensures forall k :: 0 <= k < |ps| ==> ps[k] < |us| && Chosen(table, t, us, action)[k] == us[ps[k]]
    ensures forall j, k :: 0 <= j < k < |ps| ==> ps[j] < ps[k]
    ensures forall i :: 0 <= i < |us| ==> (i in ps <==> RuleOf(table, t, us[i].varId) == action)
    decreases |us|
  {
    if us == [] {
      ps := [];
    } else {
      var n := |us| - 1;
      ps := ChosenIsFilter(table, t, us[..n], action);
      if RuleOf(table, t, us[n].varId) == action {
        ps := ps + [n];
      }
    }
  }

  /** No update is both notified and handed to a user action. */
  lemma RoutedOnce(table: Table, t: nat, us: seq<Update>) returns (ns: seq<nat>, cs: seq<nat>)
    requires Rules.Shaped(table)
    ensures |ns| == |Chosen(table, t, us, NotifyUpwards)| && |cs| == |Chosen(table, t, us, CallUserService)|
    ensures forall k :: 0 <= k < |ns| ==> ns[k] < |us| && Chosen(table, t, us, NotifyUpwards)[k] == us[ns[k]]
    ensures forall k :: 0 <= k < |cs| ==> cs[k] < |us| && Chosen(table, t, us, CallUserService)[k] == us[cs[k]]
    ensures forall i :: i in ns ==> i !in cs
  {
    ns := ChosenIsFilter(table, t, us, NotifyUpwards);
    cs := ChosenIsFilter(table, t, us, CallUserService);
  }

  /** The table names the action for the variable. */
  predicate Ruled(table: Table, t: nat, v: nat, action: Action)
    requires Rules.Shaped(table)
  {
    t < MAX_TWINS && v < MAX_VARS_PER_TWINS && table[t][v] == action
  }

  /** `b` is what `e` leaves for an action: its header, and the updates at the positions `ps`, which are all
      those the table names the action for, in their order. */
  ghost predicate Selection(b: Event, e: Event, table: Table, action: Action, ps: seq<nat>)
    requires Rules.Shaped(table) && e.payload.Updates?
  {
    var us := e.payload.updates;
    && b.header == e.header && b.payload.Updates? && |b.payload.updates| == |ps|
    && (forall k :: 0 <= k < |ps| ==> ps[k] < |us| && b.payload.updates[k] == us[ps[k]])
    && (forall j, k :: 0 <= j < k < |ps| ==> ps[j] < ps[k])
    && (forall i :: 0 <= i < |us| ==> (i in ps <==> Ruled(table, e.header.twinId, us[i].varId, action)))
  }

  ghost predicate SomeRuled(e: Event, table: Table, action: Action)
    requires Rules.Shaped(table) && e.payload.Updates?
  {
    exists i :: 0 <= i < |e.payload.updates| && Ruled(table, e.header.twinId, e.payload.updates[i].varId, action)
  }

  /** An event is handed on for an action exactly when the table names the action for one of its updates,
      and then once, with exactly those updates. */
  lemma BatchExactly(table: Table, e: Event, action: Action) returns (ps: seq<nat>)
    requires Rules.Shaped(table) && e.payload.Updates? && action != Ignore
    ensures SomeRuled(e, table, action) ==>
              |Batch(table, e, action)| == 1 && Selection(Batch(table, e, action)[0], e, table, action, ps)
    ensures !SomeRuled(e, table, action) ==> Batch(table, e, action) == []
  {
    var us, t := e.payload.updates, e.header.twinId;
    ps := ChosenIsFilter(table, t, us, action);
    hide Chosen;
    if SomeRuled(e, table, action) {
      var i :| 0 <= i < |us| && Ruled(table, t, us[i].varId, action);
      assert i in ps;
    }
    if ps != [] {
      assert ps[0] in ps;
      assert Ruled(table, t, us[ps[0]].varId, action);
    }
  }

  /** What the sender relies on: a batch index in range, a twin and variables inside the tables. */
  ghost predicate Entry(e: Event) {
    && e.header.kind == EVENT_UPDATE && e.header.twinId < MAX_TWINS
    && e.payload.Updates? && 1 <= |e.payload.updates| <= MAX_VARS_PER_EVENT
    && forall u :: u in e.payload.updates ==> u.varId < MAX_VARS_PER_TWINS
  }

  /** Any batch for an action other than ignoring is such an entry, because the rule table's default ignores. */
  lemma BatchIsEntry(table: Table, e: Event, action: Action)
    requires Rules.Shaped(table) && Consistent(e) && e.header.kind == EVENT_UPDATE && action != Ignore
    ensures forall b :: b in Batch(table, e, action) ==> Entry(b) && b.header == e.header
  {
    var us, t := e.payload.updates, e.header.twinId;
    var chosen := Chosen(table, t, us, action);
    var ps := ChosenIsFilter(table, t, us, action);
    forall u | u in chosen
      ensures t < MAX_TWINS && u.varId < MAX_VARS_PER_TWINS
    {
      var k :| 0 <= k < |chosen| && chosen[k] == u;
      assert ps[k] in ps;
    }
    if chosen != [] {
      assert chosen[0] in chosen;
    }
  }
}
