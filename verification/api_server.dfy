/** One turn of the query server's loop: a request is read, the twin store is read or a twin is deleted,
    and a reply is packed. Interleaving with the processor is the subject of `Publication`. */
module ApiServer {
  import opened Bytes
  import opened Items
  import opened Codec
  import opened Streams
  import opened Unpacker
  import opened Packer
  import opened Events
  import opened Memory
  import Messages

  datatype Request = GetAll | Get(id: nat) | Remove(id: nat) | Invalid(message: string)

  /** What the server makes of the request bytes. */
  function ParseRequest(data: seq<byte>, base: nat, junk: nat): (r: Request)
    ensures r.Get? || r.Remove? ==> r.id < TWO32
    ensures r.Invalid? ==> |r.message| <= 36
  {
    var first := NextCursor(Cursor(data, base, 0, RC_OK, NotAnItem, junk));
    if first.code != RC_OK then Invalid("Failed to unpack request")
    else
      match first.last
      case Got(Array(size)) =>
        if size == 0 then Invalid("Array of arguments expected")
        else
          var second := NextCursor(first);
          var opcode := second.word % 256;
          if opcode == 0 then GetAll
          else if opcode == 1 || opcode == 2 then
            if size < 2 then Invalid("Not enough arguments for this opcode")
            else
              var id := Low32(NextCursor(second).word);
              if opcode == 1 then Get(id) else Remove(id)
          else Invalid("Error: OpCode desconocido")
      case _ => Invalid("Array of arguments expected")
  }

  function Ascii(s: string): (r: seq<byte>)
    ensures |r| == |s|
  {
    seq(|s|, i requires 0 <= i < |s| => s[i] as int % 256)
  }

  function Text(s: string): Item {
    Str(Ascii(s))
  }

  /** The status as cw_pack_unsigned receives it: -1 for an unknown twin becomes the largest integer. */
  function StatusWord(m: seq<Twin>, t: nat): nat
    requires Memory.Shaped(m)
  {
    if t < MAX_TWINS then m[t].status else TWO64 - 1
  }

  function ValueAt(m: seq<Twin>, t: nat, v: nat): nat
    requires Memory.Shaped(m) && v < MAX_VARS_PER_TWINS
  {
    if t < MAX_TWINS then m[t].vars[v] else MINUS_ONE
  }

  function ValueItems(m: seq<Twin>, t: nat): (r: seq<Item>)
    requires Memory.Shaped(m)
    ensures |r| == MAX_VARS_PER_TWINS
    ensures forall v :: 0 <= v < MAX_VARS_PER_TWINS ==> r[v] == Float(ValueAt(m, t, v))
  {
    seq(MAX_VARS_PER_TWINS, v requires 0 <= v < MAX_VARS_PER_TWINS => Float(ValueAt(m, t, v)))
  }

  function TwinItems(m: seq<Twin>, t: nat): seq<Item>
    requires Memory.Shaped(m)
  {
    [Map(3), Text("id"), PosInt(t), Text("status"), PosInt(StatusWord(m, t)), Text("vars"),
     Array(MAX_VARS_PER_TWINS)] + ValueItems(m, t)
  }

  function AllTwinItems(m: seq<Twin>, n: nat): seq<Item>
    requires Memory.Shaped(m)
  {
    if n == 0 then [] else AllTwinItems(m, n - 1) + TwinItems(m, n - 1)
  }

  function ErrorItems(message: string): seq<Item> {
    [Map(2), Text("status"), Text("error"), Text("msg"), Text(message)]
  }

  function RemovedItems(id: nat): seq<Item> {
    [Map(2), Text("status"), Text("deleted"), Text("id"), PosInt(id)]
  }

  function ReplyItems(m: seq<Twin>, r: Request): seq<Item>
    requires Memory.Shaped(m)
  {
    match r
    case GetAll => [Array(MAX_TWINS)] + AllTwinItems(m, MAX_TWINS)
    case Get(id) => TwinItems(m, id)
    case Remove(id) => RemovedItems(id)
    case Invalid(message) => ErrorItems(message)
  }

  /** A deletion only marks a known twin; every other request leaves the store alone. */
  function StoreAfter(m: seq<Twin>, r: Request): seq<Twin>
    requires Memory.Shaped(m)
  {
    if r.Remove? && r.id < MAX_TWINS then m[r.id := m[r.id].(status := STATUS_GONE)] else m
  }

  // ---------------------------------------------------------------- what a reply shows

  /** A text item with these characters. */
  ghost predicate Spells(item: Item, s: string) {
    item.Str? && |item.chars| == |s| && forall i :: 0 <= i < |s| ==> item.chars[i] == s[i] as int % 256
  }

  /** The 27 items are a map of the twin's identifier, its status, and its values in the order of the
      variables; of a twin outside the store they show the status 2^64 - 1 and twenty times -1.0f. */
  ghost predicate ShowsTwin(items: seq<Item>, m: seq<Twin>, t: nat)
    requires Memory.Shaped(m)
  {
    && |items| == 27
    && items[0] == Map(3)
    && Spells(items[1], "id") && items[2] == PosInt(t)
    && Spells(items[3], "status") && items[4] == PosInt(if t < 10 then m[t].status else 0xffff_ffff_ffff_ffff)
    && Spells(items[5], "vars") && items[6] == Array(20)
    && ShowsValues(items[7..], m, t)
  }

  ghost predicate ShowsValues(items: seq<Item>, m: seq<Twin>, t: nat)
    requires Memory.Shaped(m)
  {
    |items| == 20 && forall v :: 0 <= v < 20 ==> items[v] == Float(if t < 10 then m[t].vars[v] else 0xbf80_0000)
  }

  /** The items answer the request from the store. */
  ghost predicate Answers(m: seq<Twin>, r: Request, items: seq<Item>)
    requires Memory.Shaped(m)
  {
    match r
    case GetAll =>
      && |items| == 271 && items[0] == Array(10)
      && forall t :: 0 <= t < 10 ==> ShowsTwin(items[1 + 27 * t..28 + 27 * t], m, t)
    case Get(id) => ShowsTwin(items, m, id)
    case Remove(id) =>
      && |items| == 5 && items[0] == Map(2) && Spells(items[1], "status") && Spells(items[2], "deleted")
      && Spells(items[3], "id") && items[4] == PosInt(id)
    case Invalid(message) =>
      && |items| == 5 && items[0] == Map(2) && Spells(items[1], "status") && Spells(items[2], "error")
      && Spells(items[3], "msg") && Spells(items[4], message)
  }

  /** No value changes, and of the statuses only that of a twin to be removed, which becomes 2. */
  ghost predicate Marks(m: seq<Twin>, r: Request, after: seq<Twin>)
    requires Memory.Shaped(m)
  {
    && |after| == |m|
    && forall t :: 0 <= t < |m| ==>
         after[t].vars == m[t].vars && after[t].status == if r == Remove(t) then 2 else m[t].status
  }

  lemma TextSpells(s: string)
    ensures Spells(Text(s), s)
  {
  }

  lemma ValuesShown(m: seq<Twin>, t: nat)
    requires Memory.Shaped(m)
    ensures ShowsValues(ValueItems(m, t), m, t)
  {
  }

  lemma TwinShown(m: seq<Twin>, t: nat)
    requires Memory.Shaped(m)
    ensures ShowsTwin(TwinItems(m, t), m, t)
  {
    hide Spells, Text, ValueItems, ShowsValues;
    TextSpells("id");
    TextSpells("status");
    TextSpells("vars");
    ValuesShown(m, t);
    assert TwinItems(m, t)[7..] == ValueItems(m, t);
  }

  lemma {:induction false} AllTwinsShown(m: seq<Twin>, n: nat)
    requires Memory.Shaped(m)
    ensures var items := [Array(10)] + AllTwinItems(m, n);
            |items| == 1 + 27 * n && forall t :: 0 <= t < n ==> ShowsTwin(items[1 + 27 * t..28 + 27 * t], m, t)
  {
    hide TwinItems, ShowsTwin;
    if n > 0 {
      AllTwinsShown(m, n - 1);
      var before, twin := [Array(10)] + AllTwinItems(m, n - 1), TwinItems(m, n - 1);
      var items := [Array(10)] + AllTwinItems(m, n);
      assert items == before + twin;
      TwinShown(m, n - 1);
      ShownLength(twin, m, n - 1);
      forall t | 0 <= t < n ensures ShowsTwin(items[1 + 27 * t..28 + 27 * t], m, t) {
        if t == n - 1 {
          assert items[1 + 27 * t..28 + 27 * t] == twin;
        } else {
          assert items[1 + 27 * t..28 + 27 * t] == before[1 + 27 * t..28 + 27 * t];
        }
      }
    }
  }

  lemma ShownLength(items: seq<Item>, m: seq<Twin>, t: nat)
    requires Memory.Shaped(m) && ShowsTwin(items, m, t)
    ensures |items| == 27
  {
  }

  /** Every reply answers its request from the store, item by item and character by character. */
  lemma ReplyAnswers(m: seq<Twin>, r: Request)
    requires Memory.Shaped(m)
    ensures Answers(m, r, ReplyItems(m, r))
  {
    hide Spells, Text, TwinItems, ShowsTwin, AllTwinItems;
    match r
    case GetAll => AllTwinsShown(m, 10);
    case Get(id) => TwinShown(m, id);
    case Remove(id) =>
      TextSpells("status");
      TextSpells("deleted");
      TextSpells("id");
    case Invalid(message) =>
      TextSpells("status");
      TextSpells("error");
      TextSpells("msg");
      TextSpells(message);
  }

  lemma RequestMarks(m: seq<Twin>, r: Request)
    requires Memory.Shaped(m)
    ensures Marks(m, r, StoreAfter(m, r))
  {
  }

  // ---------------------------------------------------------------- complete requests

  /** A request as a client means it: an operation code and, for one twin, its identifier. */
  function RequestItems(r: Request): seq<Item>
    requires !r.Invalid?
  {
    match r
    case GetAll => [Array(1), PosInt(0)]
    case Get(id) => [Array(2), PosInt(1), PosInt(id)]
    case Remove(id) => [Array(2), PosInt(2), PosInt(id)]
  }

  lemma OperationRead(data: seq<byte>, base: nat, junk: nat, size: nat, op: nat, rest: seq<Item>, code: int)
    returns (second: Cursor)
    requires Drain(data) == Drained([Array(size), PosInt(op)] + rest, code)
    ensures var first := NextCursor(Cursor(data, base, 0, RC_OK, NotAnItem, junk));
            && first.code == RC_OK && first.last == Got(Array(size)) && second == NextCursor(first)
            && second.word == op && second.pos <= |second.data| && second.code == RC_OK
            && Pending(second) == Drained(rest, code)
  {
    hide NextCursor, Pending, StoreWord, Drain;
    var start := Cursor(data, base, 0, RC_OK, NotAnItem, junk);
    Messages.StartPending(start);
    var items := [Array(size), PosInt(op)] + rest;
    var first := Messages.Step(start, items, code);
    assert items[1..] == [PosInt(op)] + rest;
    second := Messages.Step(first, items[1..], code);
    assert items[1..][1..] == rest;
  }

  /** A complete request, in any of its encodings and with anything behind it, is understood as it is meant. */
  lemma RequestReads(data: seq<byte>, base: nat, junk: nat, r: Request, more: seq<Item>, code: int)
    requires !r.Invalid? && (r.Get? || r.Remove? ==> r.id < TWO32)
    requires Drain(data) == Drained(RequestItems(r) + more, code)
    ensures ParseRequest(data, base, junk) == r
  {
    hide NextCursor, Pending, StoreWord, Drain;
    match r {
      case GetAll =>
        assert RequestItems(r) + more == [Array(1), PosInt(0)] + more;
        var _ := OperationRead(data, base, junk, 1, 0, more, code);
      case Get(id) =>
        assert RequestItems(r) + more == [Array(2), PosInt(1)] + ([PosInt(id)] + more);
        var second := OperationRead(data, base, junk, 2, 1, [PosInt(id)] + more, code);
        var _ := Messages.Step(second, [PosInt(id)] + more, code);
      case Remove(id) =>
        assert RequestItems(r) + more == [Array(2), PosInt(2)] + ([PosInt(id)] + more);
        var second := OperationRead(data, base, junk, 2, 2, [PosInt(id)] + more, code);
        var _ := Messages.Step(second, [PosInt(id)] + more, code);
    }
  }

  // ---------------------------------------------------------------- sizes

  ghost predicate Budget(items: seq<Item>, n: nat) {
    Faithful(items, false) && |Concat(items, false)| <= n
  }

  lemma Longer(item: Item, n: nat, rest: seq<Item>, m: nat)
    requires Small(item, n) && Budget(rest, m)
    ensures Budget([item] + rest, n + m)
  {
    hide Wire, Concat;
    ConcatFirst(item, rest, n);
  }

  lemma TextSmall(s: string)
    requires |s| < 256
    ensures Small(Text(s), if |s| < 32 then |s| + 1 else |s| + 2)
  {
    hide Store;
  }

  lemma NumberSmall(n: nat)
    ensures n < 16 ==> Small(Map(n), 1) && Small(Array(n), 1)
    ensures n < 0x1_0000 ==> Small(Array(n), 3)
    ensures n < TWO32 ==> Small(PosInt(n), 5) && Small(Float(n), 5)
    ensures n < TWO64 ==> Small(PosInt(n), 9)
  {
    hide Store;
  }

  lemma {:induction false} FloatsBudget(items: seq<Item>)
    requires forall i :: 0 <= i < |items| ==> items[i].Float? && items[i].bits32 < TWO32
    ensures Budget(items, 5 * |items|)
  {
    hide Wire, Small;
    if items != [] {
      NumberSmall(items[0].bits32);
      FloatsBudget(items[1..]);
      Longer(items[0], 5, items[1..], 5 * (|items| - 1));
      assert [items[0]] + items[1..] == items;
    } else {
      assert Concat(items, false) == [];
    }
  }

  lemma TwinBudget(m: seq<Twin>, t: nat)
    requires Fitting(m) && t < TWO32
    ensures Budget(TwinItems(m, t), 133)
  {
    hide Wire, Small, Concat, Faithful, Budget;
    var values := ValueItems(m, t);
    FloatsBudget(values);
    NumberSmall(3);
    NumberSmall(MAX_VARS_PER_TWINS);
    NumberSmall(t);
    NumberSmall(StatusWord(m, t));
    TextSmall("id");
    TextSmall("status");
    TextSmall("vars");
    var i6 := [Array(MAX_VARS_PER_TWINS)] + values;
    var i5 := [Text("vars")] + i6;
    var i4 := [PosInt(StatusWord(m, t))] + i5;
    var i3 := [Text("status")] + i4;
    var i2 := [PosInt(t)] + i3;
    var i1 := [Text("id")] + i2;
    Longer(Array(MAX_VARS_PER_TWINS), 3, values, 100);
    Longer(Text("vars"), 5, i6, 103);
    Longer(PosInt(StatusWord(m, t)), 9, i5, 108);
    Longer(Text("status"), 7, i4, 117);
    Longer(PosInt(t), 5, i3, 124);
    Longer(Text("id"), 3, i2, 129);
    Longer(Map(3), 1, i1, 132);
    assert TwinItems(m, t) == [Map(3)] + i1;
  }

  lemma {:induction false} AllTwinsBudget(m: seq<Twin>, n: nat)
    requires Fitting(m) && n <= MAX_TWINS
    ensures Budget(AllTwinItems(m, n), 133 * n)
  {
    hide Wire, TwinItems, Concat;
    if n > 0 {
      AllTwinsBudget(m, n - 1);
      TwinBudget(m, n - 1);
      ConcatInTwo(AllTwinItems(m, n - 1), TwinItems(m, n - 1));
    } else {
      assert Concat([], false) == [] by {
        NothingPacked();
      }
    }
  }

  lemma NothingPacked()
    ensures Concat([], false) == []
  {
  }

  lemma ErrorBudget(message: string)
    requires |message| <= 36
    ensures Budget(ErrorItems(message), 256)
  {
    hide Wire, Small, Concat, Faithful, Budget, Text;
    NumberSmall(2);
    TextSmall("status");
    TextSmall("error");
    TextSmall("msg");
    TextSmall(message);
    FloatsBudget([]);
    Longer(Text(message), if |message| < 32 then |message| + 1 else |message| + 2, [], 0);
    var n := if |message| < 32 then |message| + 1 else |message| + 2;
    var i3 := [Text(message)] + [];
    var i2 := [Text("msg")] + i3;
    var i1 := [Text("error")] + i2;
    var i0 := [Text("status")] + i1;
    Longer(Text("msg"), 4, i3, n);
    Longer(Text("error"), 6, i2, n + 4);
    Longer(Text("status"), 7, i1, n + 10);
    Longer(Map(2), 1, i0, n + 17);
    assert ErrorItems(message) == [Map(2)] + i0;
    Wider(ErrorItems(message), n + 18, 256);
  }

  lemma Wider(items: seq<Item>, n: nat, m: nat)
    requires Budget(items, n) && n <= m
    ensures Budget(items, m)
  {
  }

  lemma RemovedBudget(id: nat)
    requires id < TWO32
    ensures Budget(RemovedItems(id), 4096)
  {
    hide Wire, Small, Concat, Faithful, Budget, Text;
    NumberSmall(2);
    NumberSmall(id);
    TextSmall("status");
    TextSmall("deleted");
    TextSmall("id");
    FloatsBudget([]);
    Longer(PosInt(id), 5, [], 0);
    var i3 := [PosInt(id)] + [];
    var i2 := [Text("id")] + i3;
    var i1 := [Text("deleted")] + i2;
    var i0 := [Text("status")] + i1;
    Longer(Text("id"), 3, i3, 5);
    Longer(Text("deleted"), 8, i2, 8);
    Longer(Text("status"), 7, i1, 16);
    Longer(Map(2), 1, i0, 23);
    assert RemovedItems(id) == [Map(2)] + i0;
    Wider(RemovedItems(id), 24, 4096);
  }

  /** Every reply fits its buffer, so none is cut short. */
  lemma ReplyFits(m: seq<Twin>, r: Request)
    requires Fitting(m) && (r.Get? || r.Remove? ==> r.id < TWO32) && (r.Invalid? ==> |r.message| <= 36)
    ensures Budget(ReplyItems(m, r), if r.Invalid? then 256 else 4096)
  {
    hide Wire, Small, Concat, Faithful, Budget, TwinItems, AllTwinItems, ErrorItems, RemovedItems;
    match r
    case GetAll =>
      AllTwinsBudget(m, MAX_TWINS);
      NumberSmall(MAX_TWINS);
      Longer(Array(MAX_TWINS), 1, AllTwinItems(m, MAX_TWINS), 1330);
      Wider(ReplyItems(m, r), 1331, 4096);
    case Get(id) =>
      TwinBudget(m, id);
      Wider(TwinItems(m, id), 133, 4096);
    case Remove(id) => RemovedBudget(id);
    case Invalid(message) => ErrorBudget(message);
  }

  // ---------------------------------------------------------------- the code

  /** The state after the items packed so far, starting from `start`. */
  ghost predicate PackedSoFar(pc: PackContext, start: Packed, done: seq<Item>)
    reads pc, pc.buffer
  {
    pc.Valid() && !pc.beCompatible && Representable(done) && pc.State() == PackAll(start, done, false)
  }

  lemma Textual(s: string)
    requires |s| < 256
    ensures Text(s).Representable() && |Ascii(s)| < 256
  {
  }

  method PutText(pc: PackContext, s: string, ghost start: Packed, ghost done: seq<Item>)
    requires PackedSoFar(pc, start, done) && |s| < 256
    modifies pc`current, pc`returnCode, pc.buffer
    ensures PackedSoFar(pc, start, done + [Text(s)])
  {
    hide Wire, Pack, PackAll;
    Textual(s);
    PackAllThen(start, done, Text(s));
    pc.PackStr(Ascii(s));
  }

  method PutNumber(pc: PackContext, n: u64, ghost start: Packed, ghost done: seq<Item>)
    requires PackedSoFar(pc, start, done)
    modifies pc`current, pc`returnCode, pc.buffer
    ensures PackedSoFar(pc, start, done + [PosInt(n)])
  {
    hide Wire, Pack, PackAll;
    PackAllThen(start, done, PosInt(n));
    pc.PackUnsigned(n);
  }

  method PutMap(pc: PackContext, n: u32, ghost start: Packed, ghost done: seq<Item>)
    requires PackedSoFar(pc, start, done)
    modifies pc`current, pc`returnCode, pc.buffer
    ensures PackedSoFar(pc, start, done + [Map(n)])
  {
    hide Wire, Pack, PackAll;
    PackAllThen(start, done, Map(n));
    pc.PackMapSize(n);
  }

  method PutArray(pc: PackContext, n: u32, ghost start: Packed, ghost done: seq<Item>)
    requires PackedSoFar(pc, start, done)
    modifies pc`current, pc`returnCode, pc.buffer
    ensures PackedSoFar(pc, start, done + [Array(n)])
  {
    hide Wire, Pack, PackAll;
    PackAllThen(start, done, Array(n));
    pc.PackArraySize(n);
  }

  /** The loop over a twin's variables. */
  method PutValues(pc: PackContext, memory: TwinsMemory, t: u32, ghost start: Packed, ghost done: seq<Item>)
    requires PackedSoFar(pc, start, done) && memory.Valid() && Fitting(memory.twins[..])
    modifies pc`current, pc`returnCode, pc.buffer
    ensures PackedSoFar(pc, start, done + ValueItems(memory.twins[..], t))
  {
    hide Wire, Pack, PackAll;
    ghost var m := memory.twins[..];
    ghost var values := ValueItems(m, t);
    assert done + values[..0] == done;
    for i := 0 to MAX_VARS_PER_TWINS
      invariant PackedSoFar(pc, start, done + values[..i]) && memory.twins[..] == m
    {
      var bits := memory.GetVar(t, i);
      assert bits == ValueAt(m, t, i);
      PackAllThen(start, done + values[..i], Float(bits));
      pc.PackFloat(bits);
      assert done + values[..i + 1] == done + values[..i] + [values[i]];
    }
    assert values[..MAX_VARS_PER_TWINS] == values;
  }

  method PutTwin(pc: PackContext, memory: TwinsMemory, t: u32, ghost start: Packed, ghost done: seq<Item>)
    requires PackedSoFar(pc, start, done) && memory.Valid() && Fitting(memory.twins[..])
    modifies pc`current, pc`returnCode, pc.buffer
    ensures PackedSoFar(pc, start, done + TwinItems(memory.twins[..], t))
  {
    hide PackedSoFar, ValueItems, Text;
    ghost var m := memory.twins[..];
    ghost var d := done;
    PutMap(pc, 3, start, d);
    d := d + [Map(3)];
    PutText(pc, "id", start, d);
    d := d + [Text("id")];
    PutNumber(pc, t, start, d);
    d := d + [PosInt(t)];
    PutText(pc, "status", start, d);
    d := d + [Text("status")];
    var status := memory.GetStatus(t);
    PutNumber(pc, status % 0x1_0000_0000_0000_0000, start, d);
    d := d + [PosInt(StatusWord(m, t))];
    PutText(pc, "vars", start, d);
    d := d + [Text("vars")];
    PutArray(pc, MAX_VARS_PER_TWINS, start, d);
    d := d + [Array(MAX_VARS_PER_TWINS)];
    PutValues(pc, memory, t, start, d);
    assert d + ValueItems(m, t) == done + TwinItems(m, t);
  }

  /** Reading the request. */
  method ReadRequest(data: seq<byte>, base: nat, junk: nat) returns (r: Request)
    ensures r == ParseRequest(data, base, junk)
  {
    hide NextCursor;
    var ctx := new UnpackContext(data, base, junk);
    ctx.Next();
    if ctx.returnCode != RC_OK {
      return Invalid("Failed to unpack request");
    }
    if !(ctx.last.Got? && ctx.last.item.Array?) || ctx.last.item.size == 0 {
      return Invalid("Array of arguments expected");
    }
    var arraySize := ctx.last.item.size;
    ctx.Next();
    var opcode := ctx.word % 256;
    if opcode == 1 || opcode == 2 {
      if arraySize < 2 {
        return Invalid("Not enough arguments for this opcode");
      }
      ctx.Next();
      var id := Low32(ctx.word);
      return if opcode == 1 then Get(id) else Remove(id);
    }
    return if opcode == 0 then GetAll else Invalid("Error: OpCode desconocido");
  }

  /** send_error */
  method SendError(message: string) returns (reply: seq<byte>)
    requires |message| <= 36
    ensures Faithful(ErrorItems(message), false) && reply == Concat(ErrorItems(message), false)
  {
    hide PackedSoFar, Text, Concat, Wire;
    ErrorBudget(message);
    PackedWhole(ErrorItems(message), 256);
    var buffer := new byte[256];
    var pc := new PackContext(buffer, 256);
    ghost var start := Packed([], 256, RC_OK);
    NothingSoFar(pc, start);
    ghost var d: seq<Item> := [];
    PutMap(pc, 2, start, d);
    d := d + [Map(2)];
    PutText(pc, "status", start, d);
    d := d + [Text("status")];
    PutText(pc, "error", start, d);
    d := d + [Text("error")];
    PutText(pc, "msg", start, d);
    d := d + [Text("msg")];
    PutText(pc, message, start, d);
    d := d + [Text(message)];
    assert d == ErrorItems(message);
    Finished(pc, start, d);
    reply := buffer[..pc.current];
  }

  lemma NothingSoFar(pc: PackContext, start: Packed)
    requires pc.Valid() && !pc.beCompatible && pc.State() == start
    ensures PackedSoFar(pc, start, [])
  {
  }

  lemma Finished(pc: PackContext, start: Packed, done: seq<Item>)
    requires PackedSoFar(pc, start, done)
    ensures pc.Valid() && Representable(done) && pc.buffer[..pc.current] == PackAll(start, done, false).out
  {
    hide PackAll;
  }

  /** The loop of GET_ALL. */
  method PutAllTwins(pc: PackContext, memory: TwinsMemory, ghost start: Packed)
    requires PackedSoFar(pc, start, []) && memory.Valid() && Fitting(memory.twins[..])
    modifies pc`current, pc`returnCode, pc.buffer
    ensures PackedSoFar(pc, start, [Array(MAX_TWINS)] + AllTwinItems(memory.twins[..], MAX_TWINS))
  {
    hide PackedSoFar, TwinItems;
    ghost var m := memory.twins[..];
    PutArray(pc, MAX_TWINS, start, []);
    ghost var head := [Array(MAX_TWINS)];
    assert [] + head == head && head + AllTwinItems(m, 0) == head;
    for t := 0 to MAX_TWINS
      invariant PackedSoFar(pc, start, head + AllTwinItems(m, t)) && memory.twins[..] == m && memory.Valid()
    {
      PutTwin(pc, memory, t, start, head + AllTwinItems(m, t));
      assert head + AllTwinItems(m, t + 1) == head + AllTwinItems(m, t) + TwinItems(m, t);
    }
  }

  method PutRemoved(pc: PackContext, id: u32, ghost start: Packed)
    requires PackedSoFar(pc, start, [])
    modifies pc`current, pc`returnCode, pc.buffer
    ensures PackedSoFar(pc, start, RemovedItems(id))
  {
    hide PackedSoFar, Text;
    ghost var d: seq<Item> := [];
    PutMap(pc, 2, start, d);
    d := d + [Map(2)];
    PutText(pc, "status", start, d);
    d := d + [Text("status")];
    PutText(pc, "deleted", start, d);
    d := d + [Text("deleted")];
    PutText(pc, "id", start, d);
    d := d + [Text("id")];
    PutNumber(pc, id, start, d);
    d := d + [PosInt(id)];
    assert d == RemovedItems(id);
  }

  /** One request, one reply: the reply's bytes read back as the items of the answer, complete, and the store
      changes by a deletion only. */
  method Handle(memory: TwinsMemory, data: seq<byte>, base: nat, junk: nat) returns (reply: seq<byte>)
    requires memory.Valid() && Fitting(memory.twins[..])
    modifies memory.twins
    ensures memory.Valid() && Fitting(memory.twins[..])
    ensures memory.twins[..] == StoreAfter(old(memory.twins[..]), ParseRequest(data, base, junk))
    ensures Drain(reply)
         == Drained(ReplyItems(old(memory.twins[..]), ParseRequest(data, base, junk)), RC_END_OF_INPUT)
    ensures Answers(old(memory.twins[..]), ParseRequest(data, base, junk), Drain(reply).items)
    ensures Marks(old(memory.twins[..]), ParseRequest(data, base, junk), memory.twins[..])
  {
    hide Answers, Marks, PackedSoFar, Concat, Wire, TwinItems, AllTwinItems, RemovedItems, ErrorItems, Drain, ParseRequest;
    var r := ReadRequest(data, base, junk);
    ghost var m := memory.twins[..];
    ghost var items := ReplyItems(m, r);
    RequestBounds(data, base, junk);
    ReplyAnswers(m, r);
    RequestMarks(m, r);
    ReplyFits(m, r);
    PackedWhole(items, if r.Invalid? then 256 else 4096);
    if r.Invalid? {
      reply := SendError(r.message);
      return;
    }
    var buffer := new byte[4096];
    var pc := new PackContext(buffer, 4096);
    ghost var start := Packed([], 4096, RC_OK);
    NothingSoFar(pc, start);
    match r {
      case GetAll => PutAllTwins(pc, memory, start);
      case Get(id) =>
        PutTwin(pc, memory, id, start, []);
        assert [] + TwinItems(m, id) == TwinItems(m, id);
      case Remove(id) =>
        var _ := memory.SetStatus(id, STATUS_GONE);
        PutRemoved(pc, id, start);
    }
    Finished(pc, start, items);
    reply := buffer[..pc.current];
  }

  lemma RequestBounds(data: seq<byte>, base: nat, junk: nat)
    ensures var r := ParseRequest(data, base, junk);
            (r.Get? || r.Remove? ==> r.id < TWO32) && (r.Invalid? ==> |r.message| <= 36)
  {
  }
}
