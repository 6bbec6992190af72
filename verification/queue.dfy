/** The fixed-size ring buffer between the stages, as one thread sees it. */
module Queue {
  import opened Events

  /** One slot stays free, so that a full ring differs from an empty one. */
  const CAPACITY: nat := QUEUE_SIZE - 1

  /** A push onto the queue's contents: dropped when there is no room. */
  function Offer(q: seq<Event>, e: Event): seq<Event> {
    if |q| < CAPACITY then q + [e] else q
  }

  function OfferAll(q: seq<Event>, es: seq<Event>): seq<Event>
    decreases |es|
  {
    if es == [] then q else Offer(OfferAll(q, es[..|es| - 1]), es[|es| - 1])
  }

  /** With nobody popping, exactly as many events enter as there is room for: the first ones, in order. */
  lemma {:induction false} OfferAllTakesFirst(q: seq<Event>, es: seq<Event>)
    requires |q| <= CAPACITY
    ensures var k := if |es| <= CAPACITY - |q| then |es| else CAPACITY - |q|;
            OfferAll(q, es) == q + es[..k]
    decreases |es|
  {
    if es != [] {
      var front := es[..|es| - 1];
      OfferAllTakesFirst(q, front);
      var k := if |front| <= CAPACITY - |q| then |front| else CAPACITY - |q|;
      assert front[..k] == es[..k];
      assert k < |es| && k < CAPACITY - |q| ==> es[..k] + [es[k]] == es[..k + 1];
    } else {
      assert q + es[..0] == q;
    }
  }

  class EventQueue {
    const buffer: array<Event>
    var head: nat
    var tail: nat

    ghost predicate Valid()
      reads this
    {
      buffer.Length == QUEUE_SIZE && head < QUEUE_SIZE && tail < QUEUE_SIZE
    }

    /** The queued events, oldest first. */
    ghost function Contents(): (q: seq<Event>)
      requires Valid()
      reads this, buffer
      ensures |q| <= CAPACITY
    {
      if tail <= head then buffer[tail..head] else buffer[tail..] + buffer[..head]
    }

    constructor ()
      ensures Valid() && fresh(buffer) && Contents() == []
    {
      buffer := new Event[QUEUE_SIZE];
      head := 0;
      tail := 0;
    }

    method Push(e: Event) returns (rc: int)
      requires Valid()
      modifies this`head, buffer
      ensures Valid()
      ensures rc == (if |old(Contents())| < CAPACITY then 0 else -1)
      ensures Contents() == Offer(old(Contents()), e)
    {
      var nextHead := (head + 1) % QUEUE_SIZE;
      if nextHead == tail {
        return -1;
      }
      buffer[head] := e;
      head := nextHead;
      return 0;
    }

    method Pop() returns (rc: int, e: Event)
      requires Valid()
      modifies this`tail
      ensures Valid()
      ensures rc == (if old(Contents()) != [] then 0 else -1)
      ensures rc == 0 ==> e == old(Contents())[0] && Contents() == old(Contents())[1..]
      ensures rc != 0 ==> Contents() == old(Contents())
    {
      if head == tail {
        rc, e := -1, *;
        return;
      }
      e := buffer[tail];
      tail := (tail + 1) % QUEUE_SIZE;
      return 0, e;
    }
  }
}
