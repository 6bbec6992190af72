/** What deserialize_event makes of complete messages. */
module Messages {
  import opened Bytes
  import opened Items
  import opened Streams
  import opened Unpacker
  import opened Events
  import opened Queue
  import opened Parser

  // ---------------------------------------------------------------- splitting

  function AllUpdates(es: seq<Event>): seq<Update> {
    if es == [] then []
    else (match es[0].payload case Updates(us) => us case Failure(_, _) => []) + AllUpdates(es[1..])
  }

  /** Nothing is lost, doubled or reordered by the split: ceil(n/8) events, all with the header, all full
      except possibly the last, together the updates. */
  lemma {:induction false} BatchesSplit(h: Header, us: seq<Update>)
    ensures var bs := Batches(h, us);
            && |bs| == (|us| + 7) / 8
            && AllUpdates(bs) == us
            && (forall i :: 0 <= i < |bs| ==>
                 bs[i].header == h && bs[i].payload.Updates? && 1 <= |bs[i].payload.updates| <= MAX_VARS_PER_EVENT)
            && (forall i :: 0 <= i < |bs| - 1 ==> |bs[i].payload.updates| == MAX_VARS_PER_EVENT)
    decreases |us|
  {
    if us != [] && |us| > MAX_VARS_PER_EVENT {
      var rest := us[MAX_VARS_PER_EVENT..];
      BatchesSplit(h, rest);
      assert Batches(h, us)[1..] == Batches(h, rest);
      assert us == us[..MAX_VARS_PER_EVENT] + rest;
    } else if us != [] {
      assert AllUpdates([]) == [];
      assert Batches(h, us)[1..] == [];
    }
  }

  /** With `room` free slots and nobody popping, the first min(room, ceil(n/8)) batches are queued. */
  lemma QueuedBatches(h: Header, us: seq<Update>, q: seq<Event>)
    requires |q| <= CAPACITY
    ensures var room := CAPACITY - |q|;
            var k := if (|us| + 7) / 8 <= room then (|us| + 7) / 8 else room;
            k <= |Batches(h, us)| && OfferAll(q, Batches(h, us)) == q + Batches(h, us)[..k]
  {
    BatchesSplit(h, us);
    OfferAllTakesFirst(q, Batches(h, us));
  }

  // ---------------------------------------------------------------- complete update messages

  /** A report as its sender means it; values and the deviation are any numeric items. */
  datatype Report = Report(timestamp: nat, deviation: Item, twinId: nat, vars: seq<(nat, Item)>)

  predicate Numeric(item: Item) {
    item.Representable() && (item.PosInt? || item.NegInt? || item.Float? || item.Double?)
  }

  ghost predicate Sendable(r: Report) {
    && r.timestamp < TWO64 && r.twinId < TWO32 && 5 + 2 * |r.vars| < TWO32
    && Numeric(r.deviation)
    && forall v :: v in r.vars ==> v.0 < 0x1_0000 && Numeric(v.1)
  }

  function VarItems(vars: seq<(nat, Item)>): seq<Item> {
    if vars == [] then [] else [PosInt(vars[0].0), vars[0].1] + VarItems(vars[1..])
  }

  function ReportItems(r: Report): seq<Item> {
    [Array(5 + 2 * |r.vars|), PosInt(EVENT_UPDATE), PosInt(r.timestamp), r.deviation, PosInt(r.twinId),
     PosInt(|r.vars|)] + VarItems(r.vars)
  }

  /** The four bytes stored for a value: a float's bits, the low half of a double's bits, or the low 32
      bits of an integer. */
  function ValueBits(item: Item): nat
    requires Numeric(item)
  {
    match item
    case PosInt(u) => Low32(u)
    case NegInt(i) => Low32(i + TWO64)
    case Float(x) => x
    case _ => Low32(item.bits64)
  }

  function Stored(vars: seq<(nat, Item)>): (us: seq<Update>)
    requires forall v :: v in vars ==> Numeric(v.1)
    ensures |us| == |vars|
    ensures forall i :: 0 <= i < |vars| ==> us[i] == Update(vars[i].0, ValueBits(vars[i].1))
  {
    seq(|vars|, i requires 0 <= i < |vars| => Update(vars[i].0, ValueBits(vars[i].1)))
  }

  /** What the header's deviation becomes: the 64 bits left in the union by its item, as a float. A
      double-precision or integer item fills all of them, a single-precision one only the low half. */
  function DeviationOf(r: Report): nat
    requires Sendable(r)
  {
    ToFloat(StoreWord(r.timestamp, r.deviation, 0))
  }

  function ReportHeader(r: Report): Header
    requires Sendable(r)
  {
    Header(EVENT_UPDATE, r.timestamp, DeviationOf(r), r.twinId)
  }

  lemma NumericWord(word: nat, item: Item, at: nat)
    requires Numeric(item)
    ensures StoreWord(word, item, at) == StoreWord(word, item, 0)
    ensures Low32(StoreWord(word, item, at)) == ValueBits(item)
  {
    if item.Float? {
      LowOfSum(word, item.bits32);
    }
  }

  lemma LowOfSum(word: nat, x: nat)
    requires x < TWO32
    ensures Low32(word - Low32(word) + x) == x
  {
  }

  /** One call on a cursor whose pending items are known. */
  lemma Step(c: Cursor, items: seq<Item>, code: int) returns (r: Cursor)
    requires c.pos <= |c.data| && c.code == RC_OK && items != [] && Pending(c) == Drained(items, code)
    ensures r == NextCursor(c) && r.pos <= |r.data| && r.code == RC_OK && items[0].Representable()
    ensures r.last == Got(items[0]) && Pending(r) == Drained(items[1..], code)
    ensures exists at :: r.word == StoreWord(c.word, items[0], at)
    ensures items[0].PosInt? ==> r.word == items[0].u
    ensures Numeric(items[0]) ==>
              r.word == StoreWord(c.word, items[0], 0) && Low32(r.word) == ValueBits(items[0])
  {
    NextItem(c);
    r := NextCursor(c);
    hide NextCursor, Pending, StoreWord;
    var at :| r.word == StoreWord(c.word, items[0], at);
    if Numeric(items[0]) {
      NumericWord(c.word, items[0], at);
    }
  }

  lemma {:induction false} VarItemsFrom(vars: seq<(nat, Item)>, n: nat, more: seq<Item>)
    requires n < |vars|
    ensures VarItems(vars[n..]) + more == [PosInt(vars[n].0), vars[n].1] + (VarItems(vars[n + 1..]) + more)
  {
    assert vars[n..][1..] == vars[n + 1..];
  }

  lemma PairOf(c: Cursor, id: nat, item: Item, rest: seq<Item>, code: int)
    requires c.pos <= |c.data| && c.code == RC_OK && id < 0x1_0000 && Numeric(item)
    requires Pending(c) == Drained([PosInt(id), item] + rest, code)
    ensures ReadPair(c).0 == Update(id, ValueBits(item))
    ensures var after := ReadPair(c).1;
            after.pos <= |after.data| && after.code == RC_OK && Pending(after) == Drained(rest, code)
  {
    hide NextCursor, Pending, StoreWord;
    var items := [PosInt(id), item] + rest;
    var c1 := Step(c, items, code);
    assert items[1..] == [item] + rest;
    var c2 := Step(c1, items[1..], code);
    assert items[1..][1..] == rest;
  }

  lemma {:induction false} PairsOf(c: Cursor, vars: seq<(nat, Item)>, n: nat, more: seq<Item>, code: int)
    requires c.pos <= |c.data| && c.code == RC_OK && n <= |vars|
    requires forall v :: v in vars ==> v.0 < 0x1_0000 && Numeric(v.1)
    requires Pending(c) == Drained(VarItems(vars) + more, code)
    ensures var r := ReadPairs(c, n);
            && r.updates == Stored(vars)[..n] && r.cursor.code == RC_OK
            && Pending(r.cursor) == Drained(VarItems(vars[n..]) + more, code)
  {
    hide NextCursor, Pending, StoreWord, ReadPair, VarItems, ValueBits, Numeric;
    if n == 0 {
      assert vars[0..] == vars;
    } else {
      PairsOf(c, vars, n - 1, more, code);
      VarItemsFrom(vars, n - 1, more);
      assert vars[n - 1] in vars;
      PairOf(ReadPairs(c, n - 1).cursor, vars[n - 1].0, vars[n - 1].1, VarItems(vars[n..]) + more, code);
      assert Stored(vars)[..n] == Stored(vars)[..n - 1] + [Stored(vars)[n - 1]];
    }
  }

  function HeaderItems(kind: nat, timestamp: nat, deviation: Item, twinId: nat): seq<Item> {
    [PosInt(kind), PosInt(timestamp), deviation, PosInt(twinId)]
  }

  lemma HeaderRead(c: Cursor, kind: nat, timestamp: nat, deviation: Item, twinId: nat, rest: seq<Item>, code: int)
    requires c.pos <= |c.data| && c.code == RC_OK && kind < TWO32 && twinId < TWO32 && Numeric(deviation)
    requires Pending(c) == Drained(HeaderItems(kind, timestamp, deviation, twinId) + rest, code)
    ensures ReadHeader(c).0 == Header(kind, timestamp, ToFloat(StoreWord(timestamp, deviation, 0)), twinId)
    ensures ReadHeader(c).1.code == RC_OK && Pending(ReadHeader(c).1) == Drained(rest, code)
  {
    hide NextCursor, Pending, StoreWord, ToFloat;
    var items := HeaderItems(kind, timestamp, deviation, twinId) + rest;
    var c1 := Step(c, items, code);
    var c2 := Step(c1, items[1..], code);
    var c3 := Step(c2, items[2..], code);
    var c4 := Step(c3, items[3..], code);
    assert items[4..] == rest;
  }

  lemma UpdateRead(c: Cursor, h: Header, vars: seq<(nat, Item)>, more: seq<Item>, code: int)
    requires c.pos <= |c.data| && c.code == RC_OK && 5 + 2 * |vars| < TWO32
    requires forall v :: v in vars ==> v.0 < 0x1_0000 && Numeric(v.1)
    requires Pending(c) == Drained([PosInt(|vars|)] + (VarItems(vars) + more), code)
    ensures ParseUpdate(h, 5 + 2 * |vars|, c) == Parsed(0, Batches(h, Stored(vars)))
  {
    hide NextCursor, Pending, StoreWord, Batches, ReadPairs;
    var items := [PosInt(|vars|)] + (VarItems(vars) + more);
    var counted := Step(c, items, code);
    assert items[1..] == VarItems(vars) + more;
    PairsOf(counted, vars, |vars|, more, code);
    assert Stored(vars)[..|vars|] == Stored(vars);
  }

  lemma ParseSteps(data: seq<byte>, base: nat, junk: nat)
    ensures var first := NextCursor(Cursor(data, base, 0, RC_OK, NotAnItem, junk));
            var (h, c) := ReadHeader(first);
            first.code == RC_OK && Low32(first.word) >= 4 ==>
              Parse(data, base, junk) ==
                if h.kind == EVENT_UPDATE then ParseUpdate(h, Low32(first.word), c)
                else if h.kind == EVENT_ERROR then ParseError(h, c) else REJECTED
  {
    hide NextCursor, ReadHeader, ParseUpdate, ParseError;
  }

  lemma ReportBegins(r: Report, more: seq<Item>)
    ensures ReportItems(r) + more
         == [Array(5 + 2 * |r.vars|)]
            + (HeaderItems(EVENT_UPDATE, r.timestamp, r.deviation, r.twinId)
               + ([PosInt(|r.vars|)] + (VarItems(r.vars) + more)))
  {
  }

  /** A complete update message, in whatever encodings and with whatever behind it, becomes exactly the
      batches of its variables in order, under its header. */
  lemma CompleteUpdate(data: seq<byte>, base: nat, junk: nat, r: Report, more: seq<Item>, code: int)
    requires Sendable(r) && Drain(data) == Drained(ReportItems(r) + more, code)
    ensures Parse(data, base, junk) == Parsed(0, Batches(ReportHeader(r), Stored(r.vars)))
  {
    hide NextCursor, Pending, StoreWord, Batches, ReadHeader, ParseUpdate, ToFloat, ReportItems, Drain, Parse;
    var n := |r.vars|;
    var counted := [PosInt(n)] + (VarItems(r.vars) + more);
    var headed := HeaderItems(EVENT_UPDATE, r.timestamp, r.deviation, r.twinId) + counted;
    ReportBegins(r, more);
    var start := Cursor(data, base, 0, RC_OK, NotAnItem, junk);
    StartPending(start);
    var first := Step(start, [Array(5 + 2 * n)] + headed, code);
    ArrayWord(start.word, first.word, 5 + 2 * n);
    assert ([Array(5 + 2 * n)] + headed)[1..] == headed;
    HeaderRead(first, EVENT_UPDATE, r.timestamp, r.deviation, r.twinId, counted, code);
    UpdateRead(ReadHeader(first).1, ReportHeader(r), r.vars, more, code);
    ParseSteps(data, base, junk);
  }

  // ---------------------------------------------------------------- complete error messages

  /** An error message; nobody checks the array size against the items that follow. */
  datatype Alarm = Alarm(size: nat, timestamp: nat, deviation: Item, twinId: nat, errorCode: nat, text: seq<byte>)

  predicate Raisable(a: Alarm) {
    && 4 <= a.size < TWO32 && a.timestamp < TWO64 && Numeric(a.deviation) && a.twinId < TWO32
    && a.errorCode < TWO32 && |a.text| < TWO32
  }

  function AlarmItems(a: Alarm): seq<Item> {
    [Array(a.size)] + (HeaderItems(EVENT_ERROR, a.timestamp, a.deviation, a.twinId)
                       + [PosInt(a.errorCode), Str(a.text)])
  }

  lemma ErrorRead(c: Cursor, h: Header, errorCode: nat, text: seq<byte>, more: seq<Item>, code: int)
    requires c.pos <= |c.data| && c.code == RC_OK && errorCode < TWO32
    requires Pending(c) == Drained([PosInt(errorCode), Str(text)] + more, code)
    ensures ParseError(h, c)
         == Parsed(0, [Event(h, Failure(errorCode, text[..if |text| < 63 then |text| else 63]))])
  {
    hide NextCursor, Pending, StoreWord;
    var items := [PosInt(errorCode), Str(text)] + more;
    var c1 := Step(c, items, code);
    assert items[1..] == [Str(text)] + more;
    var c2 := Step(c1, items[1..], code);
    assert text[..|text|] == text;
  }

  /** A complete error message becomes one event with its code and at most 63 bytes of its text. */
  lemma CompleteError(data: seq<byte>, base: nat, junk: nat, a: Alarm, more: seq<Item>, code: int)
    requires Raisable(a) && Drain(data) == Drained(AlarmItems(a) + more, code)
    ensures Parse(data, base, junk)
         == Parsed(0, [Event(Header(EVENT_ERROR, a.timestamp, ToFloat(StoreWord(a.timestamp, a.deviation, 0)), a.twinId),
                             Failure(a.errorCode, a.text[..if |a.text| < 63 then |a.text| else 63]))])
  {
    hide NextCursor, Pending, ReadHeader, ParseError, ToFloat, Drain, Parse, HeaderItems, StoreWord;
    var start := Cursor(data, base, 0, RC_OK, NotAnItem, junk);
    StartPending(start);
    var last := [PosInt(a.errorCode), Str(a.text)] + more;
    var headed := HeaderItems(EVENT_ERROR, a.timestamp, a.deviation, a.twinId) + last;
    assert AlarmItems(a) + more == [Array(a.size)] + headed;
    var first := Step(start, [Array(a.size)] + headed, code);
    ArrayWord(start.word, first.word, a.size);
    assert ([Array(a.size)] + headed)[1..] == headed;
    HeaderRead(first, EVENT_ERROR, a.timestamp, a.deviation, a.twinId, last, code);
    ErrorRead(ReadHeader(first).1, ReadHeader(first).0, a.errorCode, a.text, more, code);
    ParseSteps(data, base, junk);
  }

  lemma StartPending(c: Cursor)
    requires c.pos == 0
    ensures Pending(c) == Drain(c.data)
  {
    assert c.data[0..] == c.data;
  }

  lemma ArrayWord(before: nat, after: nat, n: nat)
    requires n < TWO32 && exists at :: after == StoreWord(before, Array(n), at)
    ensures Low32(after) == n
  {
    LowOfSum(before, n);
  }

  /** A single-precision 0.5 (bits 0x3f000000), as the shipped sender script encodes its deviation, is
      taken for the integer its bits spell below the upper half of the timestamp: never for less than
      0x3f000000, and for exactly that word up to timestamp 2^48, which the script's millisecond clock
      will not reach for millennia. */
  lemma HalfMisread(r: Report)
    requires Sendable(r) && r.deviation == Float(0x3f00_0000)
    ensures DeviationOf(r) >= 0x3f00_0000
    ensures r.timestamp < 0x1_0000_0000_0000 ==> DeviationOf(r) == r.timestamp - Low32(r.timestamp) + 0x3f00_0000
    ensures r.timestamp == 1_700_000_000_000 ==> DeviationOf(r) == 1_697_569_046_528
  {
    hide ToFloat, IsFloat;
    var high := r.timestamp / 0x1_0000_0000;
    var word := r.timestamp - Low32(r.timestamp) + 0x3f00_0000;
    assert word == 0x1_0000_0000 * high + 0x3f00_0000;
    HalfWords(high);
    ToFloatNearest(word, 0x3f00_0000);
    ToFloatFixes(word);
  }

  lemma HalfWords(high: nat)
    ensures IsFloat(0x3f00_0000) && (high < 0x1_0000 ==> IsFloat(0x1_0000_0000 * high + 0x3f00_0000))
  {
    assert Pow2(10) == 0x400 && Pow2(20) == 0x10_0000 && Pow2(24) == 0x100_0000;
    assert Scaled(0x3f, 24) == 0x3f00_0000;
    assert Scaled(0x100 * high + 0x3f, 24) == 0x1_0000_0000 * high + 0x3f00_0000;
  }
}
