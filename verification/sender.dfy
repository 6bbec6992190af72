/** serialize_event, and its meeting with deserialize_event on the next node. */
module Sender {
  import opened Bytes
  import opened Items
  import opened Codec
  import opened Streams
  import opened Packer
  import opened Events
  import opened Parser
  import opened Messages

  /** The fields fit the C struct, and the deviation can be converted to an unsigned 64-bit integer. */
  ghost predicate Packable(e: Event) {
    && e.header.timestamp < TWO64 && e.header.deviation < TWO64 && e.header.twinId < TWO32
    && e.payload.Updates? && |e.payload.updates| <= MAX_VARS_PER_EVENT
    && forall u :: u in e.payload.updates ==> u.varId < 0x1_0000 && u.bits < TWO32
  }

  function Vars(us: seq<Update>): (r: seq<(nat, Item)>)
    ensures |r| == |us|
    ensures forall i :: 0 <= i < |us| ==> r[i] == (us[i].varId, Float(us[i].bits))
  {
    seq(|us|, i requires 0 <= i < |us| => (us[i].varId, Float(us[i].bits)))
  }

  /** The message as the receiving side describes messages. */
  function ReportOf(e: Event): Report
    requires e.payload.Updates?
  {
    Report(e.header.timestamp, PosInt(e.header.deviation), e.header.twinId, Vars(e.payload.updates))
  }

  function SentItems(e: Event): seq<Item>
    requires e.payload.Updates?
  {
    ReportItems(ReportOf(e))
  }

  lemma PairSmall(id: nat, bits: nat)
    requires id < 0x1_0000 && bits < TWO32
    ensures Small(PosInt(id), 3) && Small(Float(bits), 5)
  {
    hide Store;
  }

  lemma NoItems()
    ensures Faithful([], false) && Concat([], false) == []
  {
  }

  lemma {:induction false} VarsSmall(vars: seq<(nat, Item)>)
    requires forall v :: v in vars ==> v.0 < 0x1_0000 && v.1.Float? && v.1.bits32 < TWO32
    ensures Faithful(VarItems(vars), false) && |Concat(VarItems(vars), false)| <= 8 * |vars|
    ensures |VarItems(vars)| == 2 * |vars|
  {
    hide Wire, Concat, Faithful, Small;
    if vars == [] {
      NoItems();
    } else {
      assert vars[0] in vars;
      PairSmall(vars[0].0, vars[0].1.bits32);
      VarsSmall(vars[1..]);
      var rest := VarItems(vars[1..]);
      ConcatFirst(vars[0].1, rest, 5);
      ConcatFirst(PosInt(vars[0].0), [vars[0].1] + rest, 3);
      assert VarItems(vars) == [PosInt(vars[0].0)] + ([vars[0].1] + rest);
    }
  }

  lemma HeadSmall(e: Event)
    requires Packable(e)
    ensures Small(Array(5 + 2 * |e.payload.updates|), 3) && Small(PosInt(EVENT_UPDATE), 1)
    ensures Small(PosInt(e.header.timestamp), 9) && Small(PosInt(e.header.deviation), 9)
    ensures Small(PosInt(e.header.twinId), 5) && Small(PosInt(|e.payload.updates|), 1)
  {
    hide Store;
  }

  /** The message never exceeds 92 bytes, far inside the sender's buffer. */
  lemma MessageFits(e: Event)
    requires Packable(e)
    ensures Faithful(SentItems(e), false)
    ensures |Concat(SentItems(e), false)| <= 28 + 8 * |e.payload.updates| <= 92 < ZMQ_BUFFER_SIZE
  {
    hide Concat, Wire, Small;
    var us, vars := e.payload.updates, Vars(e.payload.updates);
    VarsSmall(vars);
    HeadSmall(e);
    var i6 := VarItems(vars);
    var i5 := [PosInt(|us|)] + i6;
    var i4 := [PosInt(e.header.twinId)] + i5;
    var i3 := [PosInt(e.header.deviation)] + i4;
    var i2 := [PosInt(e.header.timestamp)] + i3;
    var i1 := [PosInt(EVENT_UPDATE)] + i2;
    ConcatFirst(PosInt(|us|), i6, 1);
    ConcatFirst(PosInt(e.header.twinId), i5, 5);
    ConcatFirst(PosInt(e.header.deviation), i4, 9);
    ConcatFirst(PosInt(e.header.timestamp), i3, 9);
    ConcatFirst(PosInt(EVENT_UPDATE), i2, 1);
    ConcatFirst(Array(5 + 2 * |us|), i1, 3);
    assert SentItems(e) == [Array(5 + 2 * |us|)] + i1;
  }

  /** The bytes of a message. */
  ghost function MessageBytes(e: Event): seq<byte>
    requires Packable(e)
  {
    MessageFits(e);
    Concat(SentItems(e), false)
  }

  /** The items after each of the first five. */
  lemma HeaderTails(e: Event) returns (i5: seq<Item>, i4: seq<Item>, i3: seq<Item>, i2: seq<Item>, i1: seq<Item>)
    requires Packable(e)
    ensures i5 == [PosInt(|e.payload.updates|)] + VarItems(Vars(e.payload.updates))
    ensures i4 == [PosInt(e.header.twinId)] + i5
    ensures i3 == [PosInt(e.header.deviation)] + i4
    ensures i2 == [PosInt(e.header.timestamp)] + i3
    ensures i1 == [PosInt(EVENT_UPDATE)] + i2
    ensures SentItems(e) == [Array(5 + 2 * |e.payload.updates|)] + i1
    ensures Representable(i5) && Representable(i4) && Representable(i3) && Representable(i2) && Representable(i1)
  {
    hide VarItems;
    VarsSmall(Vars(e.payload.updates));
    i5 := [PosInt(|e.payload.updates|)] + VarItems(Vars(e.payload.updates));
    i4 := [PosInt(e.header.twinId)] + i5;
    i3 := [PosInt(e.header.deviation)] + i4;
    i2 := [PosInt(e.header.timestamp)] + i3;
    i1 := [PosInt(EVENT_UPDATE)] + i2;
  }

  /** serialize_event: six header items, then each variable's identifier and value, packed in place. */
  method Serialize(e: Event, buffer: array<byte>) returns (size: nat)
    requires Packable(e) && buffer.Length == ZMQ_BUFFER_SIZE
    modifies buffer
    ensures size <= 92 && buffer[..size] == MessageBytes(e)
  {
    hide Wire, Pack, PackAll, Concat, Store, VarItems, Small;
    var us := e.payload.updates;
    ghost var vars := Vars(us);
    ghost var init := Packed([], ZMQ_BUFFER_SIZE, RC_OK);
    MessageFits(e);
    PackAllFits(init, SentItems(e));
    VarsSmall(vars);
    var pc := new PackContext(buffer, ZMQ_BUFFER_SIZE);
    ghost var i5, i4, i3, i2, i1 := HeaderTails(e);
    pc.PackArraySize(5 + |us| * 2);
    PackAllOnce(init, Array(5 + 2 * |us|), i1);
    PackAllOnce(pc.State(), PosInt(EVENT_UPDATE), i2);
    pc.PackUnsigned(EVENT_UPDATE);
    PackAllOnce(pc.State(), PosInt(e.header.timestamp), i3);
    pc.PackUnsigned(e.header.timestamp);
    PackAllOnce(pc.State(), PosInt(e.header.deviation), i4);
    pc.PackUnsigned(e.header.deviation);
    PackAllOnce(pc.State(), PosInt(e.header.twinId), i5);
    pc.PackUnsigned(e.header.twinId);
    PackAllOnce(pc.State(), PosInt(|us|), VarItems(vars));
    pc.PackUnsigned(|us|);
    SerializeVars(pc, us);
    size := pc.current;
    assert buffer[..size] == [] + MessageBytes(e);
  }

  /** The loop over the variables. */
  method SerializeVars(pc: PackContext, us: seq<Update>)
    requires pc.Valid() && !pc.beCompatible
    requires forall u :: u in us ==> u.varId < 0x1_0000 && u.bits < TWO32
    requires Representable(VarItems(Vars(us)))
    modifies pc`current, pc`returnCode, pc.buffer
    ensures pc.Valid() && pc.State() == PackAll(old(pc.State()), VarItems(Vars(us)), false)
  {
    hide Wire, Pack, PackAll, VarItems, Representable;
    ghost var vars, start := Vars(us), pc.State();
    assert vars[0..] == vars;
    for i := 0 to |us|
      invariant pc.Valid() && Representable(VarItems(vars[i..]))
      invariant PackAll(pc.State(), VarItems(vars[i..]), false) == PackAll(start, VarItems(vars), false)
    {
      assert us[i] in us;
      PackVars(pc.State(), vars, i);
      pc.PackUnsigned(us[i].varId);
      pc.PackFloat(us[i].bits);
    }
    assert vars[|us|..] == [];
    NoVars(pc.State());
  }

  lemma NoVars(p: Packed)
    ensures VarItems([]) == [] && PackAll(p, [], false) == p
  {
  }

  lemma PackVars(p: Packed, vars: seq<(nat, Item)>, i: nat)
    requires i < |vars| && forall v :: v in vars ==> v.0 < 0x1_0000 && v.1.Float? && v.1.bits32 < TWO32
    ensures Representable(VarItems(vars[i..])) && Representable(VarItems(vars[i + 1..]))
    ensures PosInt(vars[i].0).Representable() && vars[i].1.Representable()
    ensures PackAll(p, VarItems(vars[i..]), false)
         == PackAll(Pack(Pack(p, Wire(PosInt(vars[i].0), false)), Wire(vars[i].1, false)), VarItems(vars[i + 1..]), false)
  {
    hide Pack, Wire;
    var rest := VarItems(vars[i + 1..]);
    VarsSmall(vars[i + 1..]);
    assert vars[i] in vars;
    VarItemsFrom(vars, i, []);
    assert VarItems(vars[i..]) == [PosInt(vars[i].0)] + ([vars[i].1] + rest);
    PackAllOnce(Pack(p, Wire(PosInt(vars[i].0), false)), vars[i].1, rest);
    PackAllOnce(p, PosInt(vars[i].0), [vars[i].1] + rest);
  }

  lemma {:induction false} VarItemsAt(vars: seq<(nat, Item)>, i: nat)
    requires i < |vars|
    ensures |VarItems(vars)| == 2 * |vars|
    ensures VarItems(vars)[2 * i] == PosInt(vars[i].0) && VarItems(vars)[2 * i + 1] == vars[i].1
  {
    var rest := VarItems(vars[1..]);
    if i > 0 {
      VarItemsAt(vars[1..], i - 1);
      assert VarItems(vars)[2 * i] == rest[2 * (i - 1)] && VarItems(vars)[2 * i + 1] == rest[2 * (i - 1) + 1];
    } else if |vars| > 1 {
      VarItemsAt(vars[1..], 0);
    }
  }

  /** A message read back, item by item: its size, the type, the four header fields as integers, and each
      variable's identifier and value, the value in single precision. */
  ghost predicate ItemsOf(e: Event, items: seq<Item>)
    requires e.payload.Updates?
  {
    var us := e.payload.updates;
    && |items| == 6 + 2 * |us|
    && items[0] == Array(5 + 2 * |us|) && items[1] == PosInt(0) && items[2] == PosInt(e.header.timestamp)
    && items[3] == PosInt(e.header.deviation) && items[4] == PosInt(e.header.twinId) && items[5] == PosInt(|us|)
    && forall i :: 0 <= i < |us| ==>
         items[6 + 2 * i] == PosInt(us[i].varId) && items[7 + 2 * i] == Float(us[i].bits)
  }

  lemma SentItemsAre(e: Event)
    requires e.payload.Updates?
    ensures ItemsOf(e, SentItems(e))
  {
    hide VarItems;
    var us, vars := e.payload.updates, Vars(e.payload.updates);
    var items, tail := SentItems(e), VarItems(vars);
    if us == [] {
      NoItemsOf(vars);
    } else {
      VarItemsAt(vars, 0);
    }
    forall i | 0 <= i < |us|
      ensures items[6 + 2 * i] == PosInt(us[i].varId) && items[7 + 2 * i] == Float(us[i].bits)
    {
      VarItemsAt(vars, i);
      assert items[6 + 2 * i] == tail[2 * i] && items[7 + 2 * i] == tail[2 * i + 1];
    }
  }

  lemma NoItemsOf(vars: seq<(nat, Item)>)
    requires vars == []
    ensures VarItems(vars) == []
  {
  }

  lemma MessageItems(e: Event)
    requires Packable(e)
    ensures ItemsOf(e, Drain(MessageBytes(e)).items) && Drain(MessageBytes(e)).code == RC_END_OF_INPUT
  {
    hide Parse, Drain, Concat, Wire, SentItems, ItemsOf;
    MessageFits(e);
    var items := SentItems(e);
    StreamReads(items, false, []);
    EmptyStream();
    ReadAsPacked(items);
    SentItemsAre(e);
    assert Concat(items, false) + [] == Concat(items, false);
    assert items + [] == items;
  }

  // ---------------------------------------------------------------- sender to parser

  /** The event the next node queues for a message: an update event whose deviation has been through a float. */
  function Received(e: Event): Event {
    e.(header := Header(EVENT_UPDATE, e.header.timestamp, ToFloat(e.header.deviation), e.header.twinId))
  }

  /** What one node sends, the next node parses: one event with the same identifiers and value bits in the
      same order, or none for an event without variables. */
  lemma SendThenParse(e: Event, base: nat, junk: nat)
    requires Packable(e)
    ensures Parse(MessageBytes(e), base, junk)
         == Parsed(0, if e.payload.updates == [] then [] else [Received(e)])
  {
    hide Parse, Drain, Concat, Wire;
    MessageFits(e);
    var items := SentItems(e);
    StreamReads(items, false, []);
    EmptyStream();
    ReadAsPacked(items);
    assert Concat(items, false) + [] == Concat(items, false);
    var us, r := e.payload.updates, ReportOf(e);
    forall v | v in r.vars
      ensures v.0 < 0x1_0000 && Numeric(v.1)
    {
      var i :| 0 <= i < |us| && v == r.vars[i];
      assert us[i] in us;
    }
    CompleteUpdate(MessageBytes(e), base, junk, r, [], RC_END_OF_INPUT);
    assert Stored(r.vars) == us;
  }

  /** The received event is the sent one exactly when that was an update event with a deviation of at most
      24 significant bits, as every parsed deviation is. */
  lemma ReceivedUnchanged(e: Event)
    ensures Received(e) == e <==> e.header.kind == EVENT_UPDATE && IsFloat(e.header.deviation)
    ensures Received(Received(e)) == Received(e)
  {
    ToFloatFixes(e.header.deviation);
  }
}
