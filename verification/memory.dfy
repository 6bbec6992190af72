/** The twin store: the last value of every variable and each twin's status. */
module Memory {
  import opened Bytes
  import opened Events

  const STATUS_OK: nat := 0
  const STATUS_GONE: nat := 2

  /** The bits of -1.0f, which a read out of range returns. */
  const MINUS_ONE: nat := 0xbf80_0000

  datatype Twin = Twin(vars: seq<nat>, status: nat)

  ghost predicate Shaped(m: seq<Twin>) {
    |m| == MAX_TWINS && forall t :: 0 <= t < |m| ==> |m[t].vars| == MAX_VARS_PER_TWINS
  }

  /** Every status is one of the two that are ever stored, and every value has the width of its C field. */
  ghost predicate Fitting(m: seq<Twin>) {
    && Shaped(m)
    && forall t :: 0 <= t < |m| ==>
         && m[t].status in {STATUS_OK, STATUS_GONE}
         && forall v :: 0 <= v < |m[t].vars| ==> m[t].vars[v] < TWO32
  }

  predicate InRange(t: nat, v: nat) {
    t < MAX_TWINS && v < MAX_VARS_PER_TWINS
  }

  /** One store of a value, which also marks the twin as present. */
  function StoreVar(m: seq<Twin>, t: nat, v: nat, bits: nat): (r: seq<Twin>)
    requires Shaped(m)
    ensures Shaped(r)
  {
    if InRange(t, v) then m[t := Twin(m[t].vars[v := bits], STATUS_OK)] else m
  }

  class TwinsMemory {
    const twins: array<Twin>

    ghost predicate Valid()
      reads this, twins
    {
      Shaped(twins[..])
    }

    constructor ()
      ensures Valid() && fresh(twins)
      ensures forall t :: 0 <= t < MAX_TWINS ==>
                twins[t].status == STATUS_GONE && forall v :: 0 <= v < MAX_VARS_PER_TWINS ==> twins[t].vars[v] == 0
    {
      twins := new Twin[MAX_TWINS];
      new;
      for i := 0 to MAX_TWINS
        invariant forall t :: 0 <= t < i ==>
                    && |twins[t].vars| == MAX_VARS_PER_TWINS && twins[t].status == STATUS_GONE
                    && forall v :: 0 <= v < MAX_VARS_PER_TWINS ==> twins[t].vars[v] == 0
      {
        var vars: seq<nat> := [];
        for j := 0 to MAX_VARS_PER_TWINS
          invariant |vars| == j && forall v :: 0 <= v < j ==> vars[v] == 0
        {
          vars := vars + [0];
        }
        twins[i] := Twin(vars, STATUS_GONE);
      }
    }

    method UpdateVar(t: nat, v: nat, bits: nat)
      requires Valid()
      modifies twins
      ensures Valid() && twins[..] == StoreVar(old(twins[..]), t, v, bits)
    {
      if t >= MAX_TWINS || v >= MAX_VARS_PER_TWINS {
        return;
      }
      twins[t] := twins[t].(vars := twins[t].vars[v := bits]);
      twins[t] := twins[t].(status := STATUS_OK);
    }

    method GetVar(t: nat, v: nat) returns (bits: nat)
      requires Valid()
      ensures bits == if InRange(t, v) then twins[t].vars[v] else MINUS_ONE
    {
      if t >= MAX_TWINS || v >= MAX_VARS_PER_TWINS {
        return MINUS_ONE;
      }
      return twins[t].vars[v];
    }

    method SetStatus(t: nat, status: nat) returns (rc: int)
      requires Valid()
      modifies twins
      ensures Valid()
      ensures t < MAX_TWINS ==> rc == 0 && twins[..] == old(twins[..])[t := old(twins[t]).(status := status)]
      ensures t >= MAX_TWINS ==> rc == -1 && twins[..] == old(twins[..])
    {
      if t >= MAX_TWINS {
        return -1;
      }
      twins[t] := twins[t].(status := status);
      return 0;
    }

    method GetStatus(t: nat) returns (status: int)
      requires Valid()
      ensures status == if t < MAX_TWINS then twins[t].status else -1
    {
      if t >= MAX_TWINS {
        return -1;
      }
      return twins[t].status;
    }
  }
}
