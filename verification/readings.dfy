/** What the parser and the query server make of a buffer, stated on the items read from it and on what
    they leave in the item union. */
module Readings {
  import opened Bytes
  import opened Items
  import opened Codec
  import opened Formats
  import opened Streams
  import opened Unpacker
  import opened Events
  import opened Parser
  import ApiServer

  // ---------------------------------------------------------------- the union

  /** The union's first eight bytes before and after an item is stored in it: a boolean replaces one byte, a
      float and the sizes replace four, the other members all eight, and the rest is kept. Of a string, a
      binary and an extension these bytes are the address. */
  ghost predicate Replaces(before: nat, item: Item, after: nat) {
    match item
    case Nil => after == before
    case Boolean(b) => after % 0x100 == (if b then 1 else 0) && after / 0x100 == before / 0x100
    case PosInt(u) => after == u
    case NegInt(i) => after == 0x1_0000_0000_0000_0000 + i
    case Float(x) => after % 0x1_0000_0000 == x && after / 0x1_0000_0000 == before / 0x1_0000_0000
    case Double(x) => after == x
    case Array(n) => after % 0x1_0000_0000 == n && after / 0x1_0000_0000 == before / 0x1_0000_0000
    case Map(n) => after % 0x1_0000_0000 == n && after / 0x1_0000_0000 == before / 0x1_0000_0000
    case Time(s, _) => after < 0x1_0000_0000_0000_0000 && (after == s || after == 0x1_0000_0000_0000_0000 + s)
    case _ => after < 0x1_0000_0000_0000_0000
  }

  lemma StoreReplaces(before: nat, item: Item, at: nat)
    requires item.Representable()
    ensures Replaces(before, item, StoreWord(before, item, at))
  {
    hide Low32;
    match item
    case Float(x) => LowReplaced(before, x);
    case Array(n) => LowReplaced(before, n);
    case Map(n) => LowReplaced(before, n);
    case _ =>
  }

  lemma LowReplaced(before: nat, x: nat)
    requires x < TWO32
    ensures before >= Low32(before)
    ensures var after := before - Low32(before) + x;
            after % 0x1_0000_0000 == x && after / 0x1_0000_0000 == before / 0x1_0000_0000
  {
  }

  function BlobOf(item: Item): seq<byte>
    requires item.Str? || item.Bin? || item.Ext?
  {
    match item
    case Str(s) => s
    case Bin(s) => s
    case Ext(_, s) => s
  }

  /** The address stored for a string, a binary or an extension is that of its bytes, which end where the
      cursor now stands. */
  lemma BlobAddress(c: Cursor, item: Item, used: nat)
    requires c.pos <= |c.data| && c.code == RC_OK && Decode(c.data[c.pos..]) == Ok(item, used)
    requires item.Str? || item.Bin? || item.Ext?
    ensures var r := NextCursor(c);
            var s := BlobOf(item);
            var a := r.pos - |s|;
            a > c.pos && c.data[a..r.pos] == s && r.word == (c.base + a) % 0x1_0000_0000_0000_0000
  {
    hide Decode, Encodes, NextCursor;
    BlobStored(c, item, used);
    var bs := c.data[c.pos..];
    DecodeBounds(bs);
    assert bs[..used] + bs[used..] == bs;
    ReadsExactly(bs[..used], bs[used..], item);
    EndsWithBlob(bs[..used], item);
    var a := c.pos + used - |BlobOf(item)|;
    assert c.data[a..c.pos + used] == bs[..used][used - |BlobOf(item)|..];
  }

  lemma BlobStored(c: Cursor, item: Item, used: nat)
    requires c.pos <= |c.data| && c.code == RC_OK && Decode(c.data[c.pos..]) == Ok(item, used)
    requires item.Str? || item.Bin? || item.Ext?
    ensures var r, a := NextCursor(c), c.base + c.pos + used - |BlobOf(item)|;
            r.pos == c.pos + used && (a >= 0 ==> r.word == a % 0x1_0000_0000_0000_0000)
  {
    hide Decode;
  }

  lemma EndsWithBlob(bs: seq<byte>, item: Item)
    requires Encodes(bs, item) && (item.Str? || item.Bin? || item.Ext?)
    ensures var s := BlobOf(item); |bs| > |s| && bs[|bs| - |s|..] == s
  {
    hide Store;
  }

  /** `ws[k]` is what the union holds after `k` calls, each of which delivers one of the items while there
      are any and then leaves it alone. */
  ghost predicate Words(ws: seq<nat>, items: seq<Item>, junk: nat) {
    && ws != [] && ws[0] == junk
    && (forall k :: 0 <= k < |ws| - 1 ==>
         if k < |items| then Replaces(ws[k], items[k], ws[k + 1]) else ws[k + 1] == ws[k])
  }

  // ---------------------------------------------------------------- many calls

  ghost function Calls(c: Cursor, n: nat): (r: Cursor)
    requires c.pos <= |c.data|
    ensures r.pos <= |r.data|
  {
    if n == 0 then c else NextCursor(Calls(c, n - 1))
  }

  /** A cursor that has delivered the items before `n`, of a stream with these items and final code. */
  ghost predicate Along(c: Cursor, items: seq<Item>, code: int, n: nat) {
    && c.pos <= |c.data|
    && (n <= |items| ==>
         c.code == RC_OK && Pending(c) == Drained(items[n..], code) && (n > 0 ==> c.last == Got(items[n - 1])))
    && (n > |items| ==> c.code == code && c.code != RC_OK && c.last == NotAnItem)
  }

  lemma NextAlong(c: Cursor, items: seq<Item>, code: int, n: nat)
    requires Along(c, items, code, n)
    ensures Along(NextCursor(c), items, code, n + 1)
    ensures if n < |items| then Replaces(c.word, items[n], NextCursor(c).word) else NextCursor(c).word == c.word
  {
    hide Pending, StoreWord, Replaces, NextCursor;
    if n <= |items| {
      NextItem(c);
      if n < |items| {
        assert items[n..][1..] == items[n + 1..];
        var at: nat :| NextCursor(c).word == StoreWord(c.word, items[n], at);
        StoreReplaces(c.word, items[n], at);
      }
    } else {
      NextAfterFailure(c);
    }
  }

  lemma NextAfterFailure(c: Cursor)
    requires c.pos <= |c.data| && c.code != RC_OK
    ensures NextCursor(c) == c
  {
  }

  lemma {:induction false} CallsAlong(c: Cursor, items: seq<Item>, code: int, n: nat)
    requires c.pos <= |c.data| && Along(c, items, code, 0)
    ensures Along(Calls(c, n), items, code, n)
    ensures n > 0 ==>
              var before, after := Calls(c, n - 1).word, Calls(c, n).word;
              if n - 1 < |items| then Replaces(before, items[n - 1], after) else after == before
  {
    hide Along, NextCursor, Replaces;
    if n > 0 {
      CallsAlong(c, items, code, n - 1);
      NextAlong(Calls(c, n - 1), items, code, n - 1);
    }
  }

  ghost function Start(data: seq<byte>, base: nat, junk: nat): Cursor {
    Cursor(data, base, 0, RC_OK, NotAnItem, junk)
  }

  lemma StartAlong(data: seq<byte>, base: nat, junk: nat)
    ensures Along(Start(data, base, junk), Drain(data).items, Drain(data).code, 0)
  {
    hide Drain;
    assert data[0..] == data;
    assert Drain(data).items[0..] == Drain(data).items;
  }

  /** The union's contents over `n` calls. */
  ghost function WordsOf(data: seq<byte>, base: nat, junk: nat, n: nat): (ws: seq<nat>)
    ensures |ws| == n + 1
    ensures forall k :: 0 <= k <= n ==> ws[k] == Calls(Start(data, base, junk), k).word
  {
    seq(n + 1, k requires 0 <= k <= n => Calls(Start(data, base, junk), k).word)
  }

  lemma WordsAre(data: seq<byte>, base: nat, junk: nat, n: nat)
    ensures Words(WordsOf(data, base, junk, n), Drain(data).items, junk)
  {
    hide Calls, Replaces, Along, Drain;
    var start, d, ws := Start(data, base, junk), Drain(data), WordsOf(data, base, junk, n);
    NoCalls(start);
    StartAlong(data, base, junk);
    forall k | 0 <= k < n
      ensures if k < |d.items| then Replaces(ws[k], d.items[k], ws[k + 1]) else ws[k + 1] == ws[k]
    {
      CallsAlong(start, d.items, d.code, k + 1);
    }
  }

  lemma NoCalls(c: Cursor)
    requires c.pos <= |c.data|
    ensures Calls(c, 0) == c
  {
  }

  lemma OneMore(c: Cursor, n: nat)
    requires c.pos <= |c.data|
    ensures Calls(c, n + 1) == NextCursor(Calls(c, n))
  {
  }

  // ---------------------------------------------------------------- messages

  lemma HeaderCalls(c: Cursor)
    requires c.pos <= |c.data|
    ensures ReadHeader(Calls(c, 1)) ==
              (Header(Low32(Calls(c, 2).word), Calls(c, 3).word, ToFloat(Calls(c, 4).word), Low32(Calls(c, 5).word)),
               Calls(c, 5))
  {
    hide NextCursor, ToFloat, Calls;
    OneMore(c, 1);
    OneMore(c, 2);
    OneMore(c, 3);
    OneMore(c, 4);
  }

  /** The updates of a message whose union held `ws`. */
  ghost function UpdatesRead(ws: seq<nat>, count: nat): seq<Update>
    requires |ws| > 6 + 2 * count
  {
    seq(count, i requires 0 <= i < count => Update(ws[7 + 2 * i] % 0x1_0000, ws[8 + 2 * i] % 0x1_0000_0000))
  }

  lemma {:induction false} PairCalls(c: Cursor, n: nat, ws: seq<nat>)
    requires c.pos <= |c.data| && |ws| > 6 + 2 * n
    requires forall k :: 0 <= k < |ws| ==> ws[k] == Calls(c, k).word
    ensures ReadPairs(Calls(c, 6), n) == PairsRead(UpdatesRead(ws, n), Calls(c, 6 + 2 * n))
  {
    hide NextCursor, Calls;
    if n > 0 {
      PairCalls(c, n - 1, ws);
      OneMore(c, 6 + 2 * (n - 1));
      OneMore(c, 7 + 2 * (n - 1));
      assert UpdatesRead(ws, n) == UpdatesRead(ws, n - 1) + [Update(ws[5 + 2 * n] % 0x1_0000, ws[6 + 2 * n] % 0x1_0000_0000)];
    }
  }

  /** At most 63 bytes of the seventh item, if it is a string. */
  ghost predicate TextRead(items: seq<Item>, text: seq<byte>) {
    if |items| > 6 && items[6].Str?
    then text <= items[6].chars && |text| == if |items[6].chars| < 64 then |items[6].chars| else 63
    else text == []
  }

  /** A message is refused when nothing can be read, when its size has no room for a header, when its type
      is unknown, and when an update's size is not five and twice its count in 32 bits. */
  ghost predicate Refused(items: seq<Item>, ws: seq<nat>)
    requires |ws| > 6
  {
    || items == []
    || ws[1] % 0x1_0000_0000 < 4
    || ws[2] % 0x1_0000_0000 > 1
    || (ws[2] % 0x1_0000_0000 == 0 && ws[1] % 0x1_0000_0000 != (5 + 2 * (ws[6] % 0x1_0000_0000)) % 0x1_0000_0000)
  }

  ghost function HeaderRead(ws: seq<nat>): Header
    requires |ws| > 6
  {
    Header(ws[2] % 0x1_0000_0000, ws[3], ToFloat(ws[4]), ws[5] % 0x1_0000_0000)
  }

  ghost predicate IsParsed(p: Parsed, items: seq<Item>, ws: seq<nat>)
    requires |ws| > 6 && |ws| > 6 + 2 * (ws[6] % 0x1_0000_0000)
  {
    if Refused(items, ws) then p.rc == -1 && p.events == []
    else
      && p.rc == 0
      && if ws[2] % 0x1_0000_0000 == 0
         then p.events == Batches(HeaderRead(ws), UpdatesRead(ws, ws[6] % 0x1_0000_0000))
         else exists text :: TextRead(items, text)
                             && p.events == [Event(HeaderRead(ws), Failure(ws[6] % 0x1_0000_0000, text))]
  }

  lemma TextOfSeventh(c: Cursor, items: seq<Item>, code: int)
    requires c.pos <= |c.data| && Along(Calls(c, 7), items, code, 7)
    ensures TextRead(items, Message(Calls(c, 7).last))
  {
    hide NextCursor, Calls, Pending;
    if |items| > 6 {
      assert items[6].Str? ==> items[6].chars[..|items[6].chars|] == items[6].chars;
    }
  }

  /** Every buffer, whatever it holds, is parsed as the items read from it say: it is refused exactly when
      `Refused` says so, and otherwise becomes the events its header, count and variables spell, each read
      from what its item left in the union. */
  lemma ParseExactly(data: seq<byte>, base: nat, junk: nat) returns (ws: seq<nat>)
    ensures |ws| > 6 && |ws| > 6 + 2 * (ws[6] % 0x1_0000_0000) && Words(ws, Drain(data).items, junk)
    ensures IsParsed(Parse(data, base, junk), Drain(data).items, ws)
  {
    hide NextCursor, Calls, Drain, ToFloat, ReadHeader, ReadPairs, Batches, Along, Words, Message, Low32;
    var start, d := Start(data, base, junk), Drain(data);
    var count := Calls(start, 6).word % 0x1_0000_0000;
    ws := WordsOf(data, base, junk, 6 + 2 * count);
    WordsAre(data, base, junk, 6 + 2 * count);
    StartAlong(data, base, junk);
    CallsAlong(start, d.items, d.code, 1);
    CallsAlong(start, d.items, d.code, 7);
    FirstCode(start, d.items, d.code);
    HeaderCalls(start);
    OneMore(start, 5);
    OneMore(start, 6);
    OneMore(start, 0);
    NoCalls(start);
    PairCalls(start, count, ws);
    TextOfSeventh(start, d.items, d.code);
    LowParts(ws[1], ws[2]);
    LowParts(ws[5], ws[6]);
  }

  lemma LowParts(a: nat, b: nat)
    ensures Low32(a) == a % 0x1_0000_0000 && Low32(b) == b % 0x1_0000_0000
  {
  }

  lemma FirstCode(c: Cursor, items: seq<Item>, code: int)
    requires c.pos <= |c.data| && Along(Calls(c, 1), items, code, 1)
    ensures Calls(c, 1).code == RC_OK <==> items != []
    ensures items != [] ==> Calls(c, 1).last == Got(items[0])
  {
    hide Calls, Pending;
  }

  /** So an update or error message with its items in place is refused exactly when its size or type is wrong. */
  lemma RejectedExactly(data: seq<byte>, base: nat, junk: nat, size: nat, kind: nat, count: nat)
    requires var items := Drain(data).items;
             |items| >= 6 && items[0] == Array(size) && items[1] == PosInt(kind) && items[5] == PosInt(count)
    ensures Parse(data, base, junk).rc == -1 <==>
              || size < 4 || kind % 0x1_0000_0000 > 1
              || (kind % 0x1_0000_0000 == 0 && size != (5 + 2 * (count % 0x1_0000_0000)) % 0x1_0000_0000)
  {
    hide Drain, Parse, Batches, ToFloat;
    var ws := ParseExactly(data, base, junk);
    var items := Drain(data).items;
    assert Replaces(ws[0], items[0], ws[1]) && Replaces(ws[1], items[1], ws[2]) && Replaces(ws[5], items[5], ws[6]);
  }

  // ---------------------------------------------------------------- requests

  /** The request a buffer spells: what is wrong with it first, in the order of the checks. */
  ghost predicate IsRequest(r: ApiServer.Request, items: seq<Item>, ws: seq<nat>)
    requires |ws| > 3
  {
    if items == [] then r == ApiServer.Invalid("Failed to unpack request")
    else if !items[0].Array? || items[0].size == 0 then r == ApiServer.Invalid("Array of arguments expected")
    else if ws[2] % 0x100 == 0 then r == ApiServer.GetAll
    else if ws[2] % 0x100 > 2 then r == ApiServer.Invalid("Error: OpCode desconocido")
    else if items[0].size == 1 then r == ApiServer.Invalid("Not enough arguments for this opcode")
    else if ws[2] % 0x100 == 1 then r == ApiServer.Get(ws[3] % 0x1_0000_0000)
    else r == ApiServer.Remove(ws[3] % 0x1_0000_0000)
  }

  /** Every buffer is taken for the request, or gets the error, that the items read from it say. */
  lemma RequestExactly(data: seq<byte>, base: nat, junk: nat) returns (ws: seq<nat>)
    ensures |ws| == 4 && Words(ws, Drain(data).items, junk)
    ensures IsRequest(ApiServer.ParseRequest(data, base, junk), Drain(data).items, ws)
  {
    hide NextCursor, Calls, Drain, Along, Words, Low32;
    var start, d := Start(data, base, junk), Drain(data);
    ws := WordsOf(data, base, junk, 3);
    WordsAre(data, base, junk, 3);
    StartAlong(data, base, junk);
    CallsAlong(start, d.items, d.code, 1);
    FirstCode(start, d.items, d.code);
    NoCalls(start);
    OneMore(start, 0);
    OneMore(start, 1);
    OneMore(start, 2);
    LowParts(ws[3], ws[3]);
  }

  /** A request of which only the head can be read is not refused as incomplete: the array's size is taken for
      the operation and for the identifier. */
  lemma CutAfterHead(data: seq<byte>, base: nat, junk: nat, n: nat)
    requires Drain(data).items == [Array(n)]
    ensures ApiServer.ParseRequest(data, base, junk) ==
              if n == 0 then ApiServer.Invalid("Array of arguments expected")
              else if n % 0x100 == 0 then ApiServer.GetAll
              else if n == 1 then ApiServer.Invalid("Not enough arguments for this opcode")
              else if n % 0x100 == 1 then ApiServer.Get(n)
              else if n % 0x100 == 2 then ApiServer.Remove(n)
              else ApiServer.Invalid("Error: OpCode desconocido")
  {
    hide Drain, ApiServer.ParseRequest;
    var ws := RequestExactly(data, base, junk);
    var items := Drain(data).items;
    assert Replaces(ws[0], items[0], ws[1]) && ws[2] == ws[1] && ws[3] == ws[2];
    LowByte(ws[1], n);
  }

  /** The shortest such request. */
  lemma OneByteDeletes(base: nat, junk: nat)
    ensures ApiServer.ParseRequest([0x92], base, junk) == ApiServer.Remove(2)
  {
    hide ApiServer.ParseRequest;
    assert Decode([0x92]) == Ok(Array(2), 1);
    NothingBehind();
    var data: seq<byte> := [0x92];
    assert data[1..] == [];
    assert Drain(data).items == [Array(2)];
    CutAfterHead(data, base, junk, 2);
  }

  lemma NothingBehind()
    ensures Drain([]).items == []
  {
  }

  lemma LowByte(w: nat, n: nat)
    requires w % 0x1_0000_0000 == n
    ensures w % 0x100 == n % 0x100
  {
    var q, a, b := w / 0x1_0000_0000, n / 0x100, n % 0x100;
    assert w == 0x100 * (0x100_0000 * q + a) + b;
    QuotientUnique(0x100, 0x100_0000 * q + a, b, w / 0x100, w % 0x100);
  }

  /** A request cut behind its operation is executed with the operation's number as the identifier, unless it is
      an array of one. */
  lemma CutAfterOperation(data: seq<byte>, base: nat, junk: nat, n: nat, op: nat)
    requires Drain(data).items == [Array(n), PosInt(op)] && n > 1 && op in {1, 2}
    ensures ApiServer.ParseRequest(data, base, junk) == if op == 1 then ApiServer.Get(1) else ApiServer.Remove(2)
  {
    hide Drain, ApiServer.ParseRequest;
    var ws := RequestExactly(data, base, junk);
    var items := Drain(data).items;
    assert Replaces(ws[1], items[1], ws[2]) && ws[3] == ws[2];
  }
}
