/** deserialize_event: one message becomes one error event or a run of update events of at most
    MAX_VARS_PER_EVENT variables each. The values are read through the item union as the C code reads
    them, so the model is exact on every byte string. */
module Parser {
  import opened Bytes
  import opened Items
  import opened Streams
  import opened Unpacker
  import opened Events
  import opened Queue

  datatype PairsRead = PairsRead(updates: seq<Update>, cursor: Cursor)

  /** One variable: an identifier cut to 16 bits and the low four bytes of whatever the value's item left. */
  function ReadPair(c: Cursor): (Update, Cursor)
    requires c.pos <= |c.data|
  {
    var id := NextCursor(c);
    var value := NextCursor(id);
    (Update(id.word % 0x1_0000, Low32(value.word)), value)
  }

  function ReadPairs(c: Cursor, n: nat): (r: PairsRead)
    requires c.pos <= |c.data|
    ensures |r.updates| == n && r.cursor.pos <= |r.cursor.data|
  {
    if n == 0 then PairsRead([], c)
    else
      var before := ReadPairs(c, n - 1);
      var (u, after) := ReadPair(before.cursor);
      PairsRead(before.updates + [u], after)
  }

  /** The updates split into events of at most MAX_VARS_PER_EVENT, all with the same header. */
  function Batches(h: Header, us: seq<Update>): seq<Event> {
    if us == [] then []
    else if |us| <= MAX_VARS_PER_EVENT then [Event(h, Updates(us))]
    else [Event(h, Updates(us[..MAX_VARS_PER_EVENT]))] + Batches(h, us[MAX_VARS_PER_EVENT..])
  }

  function ReadHeader(c: Cursor): (r: (Header, Cursor))
    requires c.pos <= |c.data|
    ensures r.1.pos <= |r.1.data|
  {
    var kind := NextCursor(c);
    var timestamp := NextCursor(kind);
    var deviation := NextCursor(timestamp);
    var twin := NextCursor(deviation);
    (Header(Low32(kind.word), timestamp.word, ToFloat(deviation.word), Low32(twin.word)), twin)
  }

  datatype Parsed = Parsed(rc: int, events: seq<Event>)

  const REJECTED: Parsed := Parsed(-1, [])

  function ParseUpdate(h: Header, arraySize: nat, c: Cursor): Parsed
    requires c.pos <= |c.data|
  {
    var counted := NextCursor(c);
    var varCount := Low32(counted.word);
    if arraySize != (5 + varCount * 2) % 0x1_0000_0000 then REJECTED
    else Parsed(0, Batches(h, ReadPairs(counted, varCount).updates))
  }

  /** At most 63 bytes of the message are kept. */
  function Message(last: Last): seq<byte> {
    match last
    case Got(Str(s)) => if |s| >= 64 then s[..63] else s
    case _ => []
  }

  function ParseError(h: Header, c: Cursor): Parsed
    requires c.pos <= |c.data|
  {
    var code := NextCursor(c);
    var text := NextCursor(code);
    Parsed(0, [Event(h, Failure(Low32(code.word), Message(text.last)))])
  }

  /** The events of a message and the return code; `base` and `junk` are the buffer's address and the
      bytes the uninitialised item union starts with. */
  function Parse(data: seq<byte>, base: nat, junk: nat): Parsed {
    var first := NextCursor(Cursor(data, base, 0, RC_OK, NotAnItem, junk));
    if first.code != RC_OK then REJECTED
    else
      var arraySize := Low32(first.word);
      if arraySize < 4 then REJECTED
      else
        var (h, c) := ReadHeader(first);
        if h.kind == EVENT_UPDATE then ParseUpdate(h, arraySize, c)
        else if h.kind == EVENT_ERROR then ParseError(h, c)
        else REJECTED
  }

  // ---------------------------------------------------------------- the code

  lemma {:induction false} BatchesGrow(h: Header, us: seq<Update>, batch: seq<Update>)
    requires |us| % MAX_VARS_PER_EVENT == 0 && 1 <= |batch| <= MAX_VARS_PER_EVENT
    ensures Batches(h, us + batch) == Batches(h, us) + [Event(h, Updates(batch))]
    decreases |us|
  {
    if us == [] {
      assert us + batch == batch;
    } else {
      var rest := us[MAX_VARS_PER_EVENT..];
      assert (us + batch)[MAX_VARS_PER_EVENT..] == rest + batch;
      assert (us + batch)[..MAX_VARS_PER_EVENT] == us[..MAX_VARS_PER_EVENT];
      BatchesGrow(h, rest, batch);
    }
  }

  lemma OfferNext(q: seq<Event>, es: seq<Event>, e: Event)
    ensures OfferAll(q, es + [e]) == Offer(OfferAll(q, es), e)
  {
    assert (es + [e])[..|es + [e]| - 1] == es;
  }

  method Deserialize(queue: EventQueue, data: seq<byte>, base: nat, junk: nat) returns (rc: int)
    requires queue.Valid()
    modifies queue`head, queue.buffer
    ensures queue.Valid()
    ensures rc == Parse(data, base, junk).rc
    ensures queue.Contents() == OfferAll(old(queue.Contents()), Parse(data, base, junk).events)
  {
    hide NextCursor, ToFloat;
    var ctx := new UnpackContext(data, base, junk);
    ctx.Next();
    if ctx.returnCode != RC_OK {
      return -1;
    }
    var arraySize := Low32(ctx.word);
    if arraySize < 4 {
      return -1;
    }
    ctx.Next();
    var kind := Low32(ctx.word);
    ctx.Next();
    var timestamp := ctx.word;
    ctx.Next();
    var deviation := ToFloat(ctx.word);
    ctx.Next();
    var h := Header(kind, timestamp, deviation, Low32(ctx.word));
    if kind == EVENT_UPDATE {
      rc := DeserializeUpdate(queue, ctx, h, arraySize);
    } else if kind == EVENT_ERROR {
      ctx.Next();
      var code := Low32(ctx.word);
      ctx.Next();
      var e := Event(h, Failure(code, Message(ctx.last)));
      var _ := queue.Push(e);
      OfferNext(old(queue.Contents()), [], e);
      assert [] + [e] == [e];
      rc := 0;
    } else {
      rc := -1;
    }
  }

  method DeserializeUpdate(queue: EventQueue, ctx: UnpackContext, h: Header, arraySize: nat) returns (rc: int)
    requires queue.Valid() && ctx.Valid()
    modifies queue`head, queue.buffer, ctx
    ensures queue.Valid()
    ensures rc == ParseUpdate(h, arraySize, old(ctx.State())).rc
    ensures queue.Contents() == OfferAll(old(queue.Contents()), ParseUpdate(h, arraySize, old(ctx.State())).events)
  {
    hide NextCursor, ReadPairs, Batches;
    ctx.Next();
    var varCount := Low32(ctx.word);
    if arraySize != (5 + varCount * 2) % 0x1_0000_0000 {
      return -1;
    }
    EnqueueBatches(queue, ctx, h, varCount);
    return 0;
  }

  lemma NothingRead(c: Cursor, h: Header, q: seq<Event>)
    requires c.pos <= |c.data|
    ensures ReadPairs(c, 0) == PairsRead([], c) && OfferAll(q, Batches(h, [])) == q
  {
  }

  /** The outer loop. */
  method EnqueueBatches(queue: EventQueue, ctx: UnpackContext, h: Header, varCount: nat)
    requires queue.Valid() && ctx.Valid()
    modifies queue`head, queue.buffer, ctx
    ensures queue.Valid()
    ensures queue.Contents()
         == OfferAll(old(queue.Contents()), Batches(h, ReadPairs(old(ctx.State()), varCount).updates))
  {
    hide NextCursor, ReadPairs, Batches, OfferAll, Offer;
    ghost var start, queued := ctx.State(), queue.Contents();
    NothingRead(start, h, queued);
    var varsProcessed := 0;
    while varsProcessed < varCount
      invariant 0 <= varsProcessed <= varCount && queue.Valid() && ctx.Valid()
      invariant varsProcessed % MAX_VARS_PER_EVENT == 0 || varsProcessed == varCount
      invariant ctx.State() == ReadPairs(start, varsProcessed).cursor
      invariant queue.Contents() == OfferAll(queued, Batches(h, ReadPairs(start, varsProcessed).updates))
    {
      ghost var before := ReadPairs(start, varsProcessed).updates;
      var updates := FillBatch(ctx, start, varsProcessed, varCount);
      var e := Event(h, Updates(updates));
      BatchesGrow(h, before, updates);
      OfferNext(queued, Batches(h, before), e);
      var _ := queue.Push(e);
      varsProcessed := varsProcessed + |updates|;
    }
  }

  /** The inner loop: up to MAX_VARS_PER_EVENT variables, fewer when the message's count runs out. */
  method FillBatch(ctx: UnpackContext, ghost start: Cursor, done: nat, varCount: nat) returns (updates: seq<Update>)
    requires ctx.Valid() && done < varCount && start.pos <= |start.data|
    requires ctx.State() == ReadPairs(start, done).cursor
    modifies ctx
    ensures ctx.Valid()
    ensures |updates| == if varCount - done < MAX_VARS_PER_EVENT then varCount - done else MAX_VARS_PER_EVENT
    ensures ReadPairs(start, done + |updates|) == PairsRead(ReadPairs(start, done).updates + updates, ctx.State())
  {
    hide NextCursor;
    updates := [];
    while |updates| < MAX_VARS_PER_EVENT && done + |updates| < varCount
      invariant |updates| <= MAX_VARS_PER_EVENT && done + |updates| <= varCount && ctx.Valid()
      invariant ReadPairs(start, done + |updates|) == PairsRead(ReadPairs(start, done).updates + updates, ctx.State())
      decreases varCount - |updates|
    {
      ctx.Next();
      var varId := ctx.word % 0x1_0000;
      ctx.Next();
      updates := updates + [Update(varId, Low32(ctx.word))];
    }
  }
}
