/** What every event that leaves the parser satisfies, on every byte string. */
module ParsedEvents {
  import opened Bytes
  import opened Items
  import opened Unpacker
  import opened Events
  import opened Parser
  import opened Dispatcher

  ghost predicate InFields(us: seq<Update>) {
    forall u :: u in us ==> u.varId < 0x1_0000 && u.bits < TWO32
  }

  /** The payload matches the type, an update is not empty and not over-full, the fields have their widths
      and the deviation is the value of a float. */
  ghost predicate Proper(e: Event) {
    && Consistent(e) && e.header.kind < EVENT_MAX
    && e.header.timestamp < TWO64 && e.header.twinId < TWO32 && IsFloat(e.header.deviation)
    && (e.payload.Updates? ==> e.payload.updates != [] && InFields(e.payload.updates))
  }

  lemma WordFits(word: nat, item: Item, at: nat)
    requires word < TWO64 && item.Representable()
    ensures StoreWord(word, item, at) < TWO64
  {
  }

  lemma NextWordFits(c: Cursor)
    requires c.pos <= |c.data| && c.word < TWO64
    ensures NextCursor(c).word < TWO64
  {
    hide StoreWord, Decode;
    var bs := c.data[c.pos..];
    Codec.DecodeBounds(bs);
    if Decode(bs).Ok? {
      var item := Decode(bs).item;
      var at := c.base + (c.pos + Decode(bs).used) - BlobSize(item);
      WordFits(c.word, item, if at >= 0 then at else 0);
    }
  }

  lemma {:induction false} PairsInFields(c: Cursor, n: nat)
    requires c.pos <= |c.data|
    ensures InFields(ReadPairs(c, n).updates)
  {
    hide NextCursor;
    if n > 0 {
      PairsInFields(c, n - 1);
    }
  }

  lemma {:induction false} BatchesProper(h: Header, us: seq<Update>)
    requires h.kind == EVENT_UPDATE && h.timestamp < TWO64 && h.twinId < TWO32 && IsFloat(h.deviation)
    requires InFields(us)
    ensures forall e :: e in Batches(h, us) ==> Proper(e)
    decreases |us|
  {
    if |us| > MAX_VARS_PER_EVENT {
      BatchesProper(h, us[MAX_VARS_PER_EVENT..]);
    }
  }

  lemma HeaderProper(c: Cursor)
    requires c.pos <= |c.data| && c.word < TWO64
    ensures var h := ReadHeader(c).0;
            h.kind < TWO32 && h.timestamp < TWO64 && h.twinId < TWO32 && IsFloat(h.deviation)
  {
    hide NextCursor, ToFloat, IsFloat;
    NextWordFits(c);
    NextWordFits(NextCursor(c));
    ToFloatFixes(NextCursor(NextCursor(NextCursor(c))).word);
  }

  lemma UpdateProper(h: Header, arraySize: nat, c: Cursor)
    requires c.pos <= |c.data|
    requires h.kind == EVENT_UPDATE && h.timestamp < TWO64 && h.twinId < TWO32 && IsFloat(h.deviation)
    ensures forall e :: e in ParseUpdate(h, arraySize, c).events ==> Proper(e)
  {
    hide NextCursor, ReadPairs, Batches, Proper, IsFloat;
    var counted := NextCursor(c);
    PairsInFields(counted, Low32(counted.word));
    BatchesProper(h, ReadPairs(counted, Low32(counted.word)).updates);
  }

  lemma ParseProper(data: seq<byte>, base: nat, junk: nat)
    requires junk < TWO64
    ensures forall e :: e in Parse(data, base, junk).events ==> Proper(e)
  {
    hide NextCursor, ReadHeader, ParseUpdate, IsFloat;
    var start := Cursor(data, base, 0, RC_OK, NotAnItem, junk);
    NextWordFits(start);
    var first := NextCursor(start);
    HeaderProper(first);
    var (h, c) := ReadHeader(first);
    if h.kind == EVENT_UPDATE {
      UpdateProper(h, Low32(first.word), c);
    }
  }
}
