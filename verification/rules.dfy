/** The rule tables that decide what happens to an update and to an error. */
module Rules {
  import opened Events

  datatype Action = Ignore | NotifyUpwards | HaltEngine | SetTwinAlarm | CallUserService

  type Table = seq<seq<Action>>

  ghost predicate Shaped(table: Table) {
    |table| == MAX_TWINS && forall t :: 0 <= t < |table| ==> |table[t]| == MAX_VARS_PER_TWINS
  }

  /** The rule for a variable; anything outside the table is ignored. */
  function RuleOf(table: Table, t: nat, v: nat): Action
    requires Shaped(table)
  {
    if t < MAX_TWINS && v < MAX_VARS_PER_TWINS then table[t][v] else Ignore
  }

  const ERROR_MAX: nat := 4

  class RuleEngine {
    const errorRules: array<Action>
    const updateRules: array<seq<Action>>

    ghost predicate Valid()
      reads this, updateRules
    {
      Shaped(updateRules[..]) && errorRules.Length == ERROR_MAX
    }

    constructor ()
      ensures Valid() && fresh(errorRules) && fresh(updateRules)
      ensures errorRules[..] == [SetTwinAlarm, HaltEngine, NotifyUpwards, Ignore]
      ensures forall t: nat, v: nat :: RuleOf(updateRules[..], t, v) == Ignore
    {
      errorRules := new Action[ERROR_MAX] [SetTwinAlarm, HaltEngine, NotifyUpwards, Ignore];
      updateRules := new seq<Action>[MAX_TWINS];
      new;
      for t := 0 to MAX_TWINS
        invariant errorRules[..] == [SetTwinAlarm, HaltEngine, NotifyUpwards, Ignore]
        invariant forall i :: 0 <= i < t ==>
                    && |updateRules[i]| == MAX_VARS_PER_TWINS
                    && forall v :: 0 <= v < MAX_VARS_PER_TWINS ==> updateRules[i][v] == Ignore
      {
        var row: seq<Action> := [];
        for v := 0 to MAX_VARS_PER_TWINS
          invariant |row| == v && forall i :: 0 <= i < v ==> row[i] == Ignore
        {
          row := row + [Ignore];
        }
        updateRules[t] := row;
      }
    }

    method SetErrorRule(code: nat, action: Action)
      requires Valid()
      modifies errorRules
      ensures Valid()
      ensures errorRules[..] == if code < ERROR_MAX then old(errorRules[..])[code := action] else old(errorRules[..])
    {
      if code < ERROR_MAX {
        errorRules[code] := action;
      }
    }

    method SetUpdateRule(t: nat, v: nat, action: Action)
      requires Valid()
      modifies updateRules
      ensures Valid()
      ensures forall t': nat, v': nat :: RuleOf(updateRules[..], t', v') ==
                if t' == t && v' == v && t < MAX_TWINS && v < MAX_VARS_PER_TWINS then action
                else RuleOf(old(updateRules[..]), t', v')
    {
      if t < MAX_TWINS && v < MAX_VARS_PER_TWINS {
        updateRules[t] := updateRules[t][v := action];
      }
    }

    method GetActionForError(code: nat) returns (action: Action)
      requires Valid()
      ensures action == if code < ERROR_MAX then errorRules[code] else Ignore
    {
      if code < ERROR_MAX {
        return errorRules[code];
      }
      return Ignore;
    }

    method GetUpdateRule(t: nat, v: nat) returns (action: Action)
      requires Valid()
      ensures action == RuleOf(updateRules[..], t, v)
    {
      if t < MAX_TWINS && v < MAX_VARS_PER_TWINS {
        return updateRules[t][v];
      }
      return Ignore;
    }
  }
}
