/** dispatch_event: an update event is written to the twin store and split by rule into the batch to
    notify and the batch for user actions. */
module Dispatcher {
  import opened Events
  import opened Queue
  import opened Memory
  import opened Rules

  /** The variable the store is addressed with: the identifier cut to 8 bits. */
  function Cell(varId: nat): nat {
    varId % 256
  }

  function ApplyUpdates(m: seq<Twin>, t: nat, us: seq<Update>): (r: seq<Twin>)
    requires Memory.Shaped(m)
    ensures Memory.Shaped(r)
    decreases |us|
  {
    if us == [] then m
    else
      var u := us[|us| - 1];
      StoreVar(ApplyUpdates(m, t, us[..|us| - 1]), t, Cell(u.varId), u.bits)
  }

  /** The updates whose rule is `action`, in their order. */
  function Chosen(table: Table, t: nat, us: seq<Update>, action: Action): (r: seq<Update>)
    requires Rules.Shaped(table)
    ensures |r| <= |us|
    decreases |us|
  {
    if us == [] then []
    else
      var u := us[|us| - 1];
      Chosen(table, t, us[..|us| - 1], action) + (if RuleOf(table, t, u.varId) == action then [u] else [])
  }

  /** The event pushed for an action: none when no update was chosen. */
  function Batch(table: Table, e: Event, action: Action): (r: seq<Event>)
    requires Rules.Shaped(table) && e.payload.Updates?
    ensures |r| <= 1
  {
    var us := Chosen(table, e.header.twinId, e.payload.updates, action);
    if us == [] then [] else [e.(payload := Updates(us))]
  }

  /** What the parser builds: the payload matches the event type and fits its C array. */
  predicate Consistent(e: Event) {
    if e.header.kind == EVENT_UPDATE then e.payload.Updates? && |e.payload.updates| <= MAX_VARS_PER_EVENT
    else e.payload.Failure? && |e.payload.message| < 64
  }

  lemma ChosenGrows(table: Table, t: nat, us: seq<Update>, u: Update, action: Action)
    requires Rules.Shaped(table)
    ensures Chosen(table, t, us + [u], action)
         == Chosen(table, t, us, action) + (if RuleOf(table, t, u.varId) == action then [u] else [])
  {
    assert (us + [u])[..|us + [u]| - 1] == us;
  }

  class EventDispatcher {
    const memory: TwinsMemory
    const rules: RuleEngine
    const notifyQueue: EventQueue
    const userActionsQueue: EventQueue

    ghost predicate Valid()
      reads this, memory, memory.twins, rules, rules.updateRules, notifyQueue, userActionsQueue
    {
      && memory.Valid() && rules.Valid() && notifyQueue.Valid() && userActionsQueue.Valid()
      && notifyQueue != userActionsQueue && notifyQueue.buffer != userActionsQueue.buffer
    }

    constructor (memory: TwinsMemory, rules: RuleEngine, notifyQueue: EventQueue, userActionsQueue: EventQueue)
      requires memory.Valid() && rules.Valid() && notifyQueue.Valid() && userActionsQueue.Valid()
      requires notifyQueue != userActionsQueue && notifyQueue.buffer != userActionsQueue.buffer
      ensures Valid()
      ensures this.memory == memory && this.rules == rules
      ensures this.notifyQueue == notifyQueue && this.userActionsQueue == userActionsQueue
    {
      this.memory := memory;
      this.rules := rules;
      this.notifyQueue := notifyQueue;
      this.userActionsQueue := userActionsQueue;
    }

    /** The first loop: every value is stored. */
    method StoreValues(t: nat, us: seq<Update>)
      requires Valid()
      modifies memory.twins
      ensures Valid() && memory.twins[..] == ApplyUpdates(old(memory.twins[..]), t, us)
    {
      for i := 0 to |us|
        invariant Valid() && memory.twins[..] == ApplyUpdates(old(memory.twins[..]), t, us[..i])
      {
        assert us[..i + 1][..i] == us[..i];
        memory.UpdateVar(t, us[i].varId % 256, us[i].bits);
      }
      assert us[..|us|] == us;
    }

    /** The second loop: updates are appended to the batch their rule names, if any. */
    method Route(t: nat, us: seq<Update>) returns (notify: seq<Update>, userAction: seq<Update>)
      requires Valid()
      ensures notify == Chosen(rules.updateRules[..], t, us, NotifyUpwards)
      ensures userAction == Chosen(rules.updateRules[..], t, us, CallUserService)
    {
      notify, userAction := [], [];
      for i := 0 to |us|
        invariant notify == Chosen(rules.updateRules[..], t, us[..i], NotifyUpwards)
        invariant userAction == Chosen(rules.updateRules[..], t, us[..i], CallUserService)
      {
        assert us[..i + 1] == us[..i] + [us[i]];
        ChosenGrows(rules.updateRules[..], t, us[..i], us[i], NotifyUpwards);
        ChosenGrows(rules.updateRules[..], t, us[..i], us[i], CallUserService);
        var action := rules.GetUpdateRule(t, us[i].varId);
        match action
        case NotifyUpwards => notify := notify + [us[i]];
        case CallUserService => userAction := userAction + [us[i]];
        case _ =>
      }
      assert us[..|us|] == us;
    }

    /** dispatch_event. An error event only prints, and an unknown one too. */
    method Dispatch(e: Event)
      requires Valid() && Consistent(e)
      modifies memory.twins, notifyQueue`head, notifyQueue.buffer, userActionsQueue`head, userActionsQueue.buffer
      ensures Valid()
      ensures e.header.kind == EVENT_UPDATE ==>
                && memory.twins[..] == ApplyUpdates(old(memory.twins[..]), e.header.twinId, e.payload.updates)
                && notifyQueue.Contents()
                   == OfferAll(old(notifyQueue.Contents()), Batch(rules.updateRules[..], e, NotifyUpwards))
                && userActionsQueue.Contents()
                   == OfferAll(old(userActionsQueue.Contents()), Batch(rules.updateRules[..], e, CallUserService))
      ensures e.header.kind != EVENT_UPDATE ==>
                && memory.twins[..] == old(memory.twins[..])
                && notifyQueue.Contents() == old(notifyQueue.Contents())
                && userActionsQueue.Contents() == old(userActionsQueue.Contents())
    {
      hide ApplyUpdates, Chosen;
      if e.header.kind != EVENT_UPDATE {
        return;
      }
      var t, us := e.header.twinId, e.payload.updates;
      StoreValues(t, us);
      var notify, userAction := Route(t, us);
      if notify != [] {
        var _ := notifyQueue.Push(e.(payload := Updates(notify)));
      }
      if userAction != [] {
        var _ := userActionsQueue.Push(e.(payload := Updates(userAction)));
      }
    }
  }
}
