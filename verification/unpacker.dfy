/** cw_unpack_context and the three readers as they run: `current` advances macro by macro, and the
    decoded value lands in a union whose other bytes keep what an earlier item left there. */
module Unpacker {
  import opened Bytes
  import opened Items
  import opened Codec
  import opened Skipping
  import opened Streams

  datatype Last = NotAnItem | Got(item: Item)

  /** A reader's whole state. `word` is the first eight bytes of the union `item.as` on a 64-bit
      little-endian machine, `base` the address of the buffer. */
  datatype Cursor = Cursor(data: seq<byte>, base: nat, pos: nat, code: int, last: Last, word: nat)

  function Low32(w: nat): (r: nat)
    ensures r < TWO32
  {
    w % 0x1_0000_0000
  }

  /** The union's first eight bytes after an item is stored; narrow members leave the rest in place. */
  function StoreWord(word: nat, item: Item, blobAt: nat): nat
    requires item.Representable()
  {
    match item
    case Nil => word
    case Boolean(b) => word - word % 256 + (if b then 1 else 0)
    case PosInt(u) => u
    case NegInt(i) => i + TWO64
    case Float(x) => word - Low32(word) + x
    case Double(x) => x
    case Str(_) => blobAt % 0x1_0000_0000_0000_0000
    case Bin(_) => blobAt % 0x1_0000_0000_0000_0000
    case Array(n) => word - Low32(word) + n
    case Map(n) => word - Low32(word) + n
    case Ext(_, _) => blobAt % 0x1_0000_0000_0000_0000
    case Time(s, _) => s % 0x1_0000_0000_0000_0000
  }

  function BlobSize(item: Item): nat {
    match item
    case Str(s) => |s|
    case Bin(s) => |s|
    case Ext(_, s) => |s|
    case _ => 0
  }

  /** One call of cw_unpack_next. */
  function NextCursor(c: Cursor): (r: Cursor)
    requires c.pos <= |c.data|
    ensures r.data == c.data && r.base == c.base && c.pos <= r.pos <= |r.data|
  {
    DecodeBounds(c.data[c.pos..]);
    if c.code != RC_OK then c
    else match Decode(c.data[c.pos..])
      case Fail(code, used) => c.(pos := c.pos + used, code := code, last := NotAnItem)
      case Ok(item, used) => Delivered(c.(pos := c.pos + used), item)
  }

  function Delivered(c: Cursor, item: Item): Cursor
    requires item.Representable()
  {
    var at := c.base + c.pos - BlobSize(item);
    c.(last := Got(item), word := StoreWord(c.word, item, if at >= 0 then at else 0))
  }

  /** What is still to be read. */
  function Pending(c: Cursor): Drained
    requires c.pos <= |c.data|
  {
    Drain(c.data[c.pos..])
  }

  /** Each call delivers the next item of the stream, and the call after the last one reports its end. */
  lemma NextItem(c: Cursor)
    requires c.pos <= |c.data| && c.code == RC_OK
    ensures var d := Pending(c);
            var r := NextCursor(c);
            if d.items == [] then r.code == d.code && r.code != RC_OK && r.last == NotAnItem && r.word == c.word
            else
              && r.code == RC_OK && r.last == Got(d.items[0]) && d.items[0].Representable()
              && Pending(r) == Drained(d.items[1..], d.code)
              && exists at :: r.word == StoreWord(c.word, d.items[0], at)
  {
    hide StoreWord;
    var bs := c.data[c.pos..];
    DecodeBounds(bs);
    FailsWithError(bs);
    if Decode(bs).Ok? {
      assert bs[Decode(bs).used..] == c.data[c.pos + Decode(bs).used..];
    }
    hide Decode;
  }

  lemma FailsWithError(bs: seq<byte>)
    ensures Decode(bs).Fail? ==> Decode(bs).code != RC_OK
  {
  }

  lemma SliceOfRest(s: seq<byte>, a: nat, i: nat, j: nat)
    requires a <= |s| && i <= j <= |s| - a
    ensures s[a..][i..j] == s[a + i..a + j]
  {
  }

  class UnpackContext {
    const data: seq<byte>
    const base: nat
    var current: nat
    var returnCode: int
    var last: Last
    var word: nat

    ghost predicate Valid()
      reads this
    {
      current <= |data|
    }

    ghost function State(): Cursor
      reads this
    {
      Cursor(data, base, current, returnCode, last, word)
    }

    /** `junk` is what the uninitialised union happens to hold. */
    constructor (bytes: seq<byte>, address: nat, junk: nat)
      ensures Valid() && State() == Cursor(bytes, address, 0, RC_OK, NotAnItem, junk)
    {
      data := bytes;
      base := address;
      current := 0;
      returnCode := RC_OK;
      last := NotAnItem;
      word := junk;
    }

    method UnpackError(code: int)
      requires Valid()
      modifies this
      ensures Valid() && State() == old(State()).(code := code, last := NotAnItem)
    {
      last := NotAnItem;
      returnCode := code;
    }

    /** cw_unpack_assert_space without an underflow handler. */
    method AssertSpace(more: nat, endCode: int) returns (p: nat, ok: bool)
      requires Valid()
      modifies this
      ensures Valid() && p == old(current) && (ok <==> p + more <= |data|)
      ensures State() == if ok then old(State()).(pos := p + more)
                         else old(State()).(code := endCode, last := NotAnItem)
    {
      p := current;
      ok := p + more <= |data|;
      if ok {
        current := p + more;
      } else {
        UnpackError(endCode);
      }
    }

    method Deliver(item: Item)
      requires Valid() && item.Representable()
      modifies this`last, this`word
      ensures Valid() && State() == Delivered(old(State()), item)
    {
      var at := base + current - BlobSize(item);
      last := Got(item);
      word := StoreWord(word, item, if at >= 0 then at else 0);
    }

    // The macros that finish an item whose first byte, at current - 1, has been read.

    method GetNumber(f: Field, w: nat)
      requires Valid() && returnCode == RC_OK && current >= 1
      requires ShapeOf(data[current - 1]) == Number(f, w)
      modifies this
      ensures Valid() && State() == NextCursor(old(State()).(pos := old(current) - 1))
    {
      hide Load, NumberItem, StoreWord;
      ghost var bs := data[current - 1..];
      DecodeBounds(bs);
      var p, ok := AssertSpace(w, RC_BUFFER_UNDERFLOW);
      if ok {
        SliceOfRest(data, p - 1, 1, 1 + w);
        Deliver(NumberItem(f, Load(data[p..p + w]), w));
      }
    }

    method GetBlob(text: bool, lead: nat, inline: nat)
      requires Valid() && returnCode == RC_OK && current >= 1
      requires ShapeOf(data[current - 1]) == Blob(text, lead, inline)
      modifies this
      ensures Valid() && State() == NextCursor(old(State()).(pos := old(current) - 1))
    {
      hide Load, StoreWord, NumberItem, TimeItem, Signed;
      ghost var bs := data[current - 1..];
      DecodeBounds(bs);
      var p, ok := AssertSpace(lead, RC_BUFFER_UNDERFLOW);
      if !ok { return; }
      SliceOfRest(data, p - 1, 1, 1 + lead);
      var len := inline + Load(data[p..p + lead]);
      p, ok := AssertSpace(len, RC_BUFFER_UNDERFLOW);
      if ok {
        SliceOfRest(data, p - 1 - lead, 1 + lead, 1 + lead + len);
        Deliver(BlobItem(text, data[p..p + len]));
      }
    }

    method GetWideExt(lead: nat)
      requires Valid() && returnCode == RC_OK && current >= 1
      requires ShapeOf(data[current - 1]) == WideExt(lead)
      modifies this
      ensures Valid() && State() == NextCursor(old(State()).(pos := old(current) - 1))
    {
      hide Load, Signed, StoreWord, TimeItem, NumberItem, BlobItem;
      ghost var bs := data[current - 1..];
      ghost var at := current - 1;
      DecodeBounds(bs);
      var p, ok := AssertSpace(lead, RC_BUFFER_UNDERFLOW);
      if !ok { return; }
      SliceOfRest(data, at, 1, 1 + lead);
      var len := Load(data[p..p + lead]);
      p, ok := AssertSpace(1, RC_BUFFER_UNDERFLOW);
      if !ok { return; }
      var kind := Signed(data[p], 1);
      if lead == 1 && kind == TYPE_TIMESTAMP {
        if len == 12 {
          GetTime96(at);
        } else {
          UnpackError(RC_WRONG_TIMESTAMP_LENGTH);
        }
        return;
      }
      GetExtBody(at, lead, len, kind);
    }

    method GetExtBody(ghost at: nat, ghost lead: nat, len: nat, kind: int)
      requires Valid() && returnCode == RC_OK && current == at + 2 + lead
      requires ShapeOf(data[at]) == WideExt(lead) && lead in {1, 2, 4}
      requires len == Load(data[at + 1..at + 1 + lead]) && kind == Signed(data[at + 1 + lead], 1)
      requires !(lead == 1 && kind == TYPE_TIMESTAMP)
      modifies this
      ensures Valid() && State() == NextCursor(old(State()).(pos := at))
    {
      hide Load, Signed, StoreWord, TimeItem, NumberItem, BlobItem;
      ghost var bs := data[at..];
      DecodeBounds(bs);
      SliceOfRest(data, at, 1, 1 + lead);
      var p, ok := AssertSpace(len, RC_BUFFER_UNDERFLOW);
      if ok {
        SliceOfRest(data, at, 2 + lead, 2 + lead + len);
        Deliver(Ext(kind, data[p..p + len]));
      }
    }

    /** The nanoseconds and then the seconds of the 96-bit form. */
    method GetTime96(ghost at: nat)
      requires Valid() && returnCode == RC_OK && current == at + 3
      requires ShapeOf(data[at]) == WideExt(1) && Load(data[at + 1..at + 2]) == 12
      requires Signed(data[at + 2], 1) == TYPE_TIMESTAMP
      modifies this
      ensures Valid() && State() == NextCursor(old(State()).(pos := at))
    {
      hide Load, Signed, StoreWord;
      ghost var bs := data[at..];
      DecodeBounds(bs);
      SliceOfRest(data, at, 1, 2);
      var p, ok := AssertSpace(4, RC_BUFFER_UNDERFLOW);
      if !ok { return; }
      var nsec := Load(data[p..p + 4]);
      p, ok := AssertSpace(8, RC_BUFFER_UNDERFLOW);
      if ok {
        ghost var stamp := bs[3..15];
        SliceOfRest(data, at, 3, 15);
        SliceOfRest(data, at + 3, 0, 4);
        assert stamp[..4] == data[p - 4..p] && stamp[4..] == data[p..p + 8];
        Deliver(Time(Signed(Load(data[p..p + 8]), 8), nsec));
      }
    }

    method GetFixExt(len: nat)
      requires Valid() && returnCode == RC_OK && current >= 1
      requires ShapeOf(data[current - 1]) == FixExt(len)
      modifies this
      ensures Valid() && State() == NextCursor(old(State()).(pos := old(current) - 1))
    {
      hide Load, Signed, StoreWord;
      ghost var bs := data[current - 1..];
      DecodeBounds(bs);
      var p, ok := AssertSpace(len + 1, RC_BUFFER_UNDERFLOW);
      if !ok { return; }
      SliceOfRest(data, p - 1, 2, 2 + len);
      var kind, body := Signed(data[p], 1), data[p + 1..p + 1 + len];
      if kind != TYPE_TIMESTAMP {
        Deliver(Ext(kind, body));
      } else if len == 4 || len == 8 {
        Deliver(TimeItem(body));
      } else {
        UnpackError(RC_WRONG_TIMESTAMP_LENGTH);
      }
    }

    method Next()
      requires Valid()
      modifies this
      ensures Valid() && State() == NextCursor(old(State()))
    {
      hide Load, StoreWord;
      if returnCode != RC_OK { return; }
      DecodeBounds(data[current..]);
      var p, ok := AssertSpace(1, RC_END_OF_INPUT);
      if !ok { return; }
      var c := data[p];
      match ShapeOf(c)
      case Illegal => UnpackError(RC_MALFORMED_INPUT);
      case Whole(item) => Deliver(item);
      case Number(f, w) => GetNumber(f, w);
      case Blob(text, lead, inline) => GetBlob(text, lead, inline);
      case WideExt(lead) => GetWideExt(lead);
      case FixExt(len) => GetFixExt(len);
    }

    /** One turn of cw_skip_items' loop: the contents a container adds to the count. */
    method SkipOne() returns (more: nat, ok: bool)
      requires Valid() && returnCode == RC_OK
      modifies this
      ensures Valid() && word == old(word)
      ensures match HopOne(data[old(current)..])
              case Step(used, n) =>
                ok && more == n && State() == old(State()).(pos := old(current) + used)
              case Stop(code, used) =>
                !ok && State() == old(State()).(pos := old(current) + used, code := code, last := NotAnItem)
    {
      hide Load, HopOf;
      ghost var bs := data[current..];
      more := 0;
      var p;
      p, ok := AssertSpace(1, RC_END_OF_INPUT);
      if !ok { return; }
      match HopOf(data[p])
      case NoHop =>
        UnpackError(RC_MALFORMED_INPUT);
        ok := false;
      case Jump(n) =>
        p, ok := AssertSpace(n, RC_BUFFER_UNDERFLOW);
      case LongJump(lead, extra) =>
        p, ok := AssertSpace(lead, RC_BUFFER_UNDERFLOW);
        if !ok { return; }
        SliceOfRest(data, p - 1, 1, 1 + lead);
        p, ok := AssertSpace((Load(data[p..p + lead]) + extra) % 0x1_0000_0000, RC_BUFFER_UNDERFLOW);
      case Grow(n) =>
        more := n;
      case LongGrow(lead, factor) =>
        p, ok := AssertSpace(lead, RC_BUFFER_UNDERFLOW);
        if !ok { return; }
        SliceOfRest(data, p - 1, 1, 1 + lead);
        more := factor * Load(data[p..p + lead]) % 0x1_0000_0000;
    }

    method SkipItems(count: int)
      requires Valid()
      modifies this
      ensures Valid() && word == old(word)
      ensures old(returnCode) != RC_OK ==> State() == old(State())
      ensures old(returnCode) == RC_OK ==>
                var r := Skip(data[old(current)..], count);
                && current == old(current) + r.used && returnCode == r.code
                && last == (if r.code == RC_OK then old(last) else NotAnItem)
    {
      hide HopOne;
      if returnCode != RC_OK { return; }
      var itemCount := count;
      ghost var start := current;
      ghost var whole := Skip(data[start..], count);
      while itemCount > 0
        invariant start <= current <= |data| && returnCode == RC_OK && last == old(last) && word == old(word)
        invariant whole == After(current - start, Skip(data[current..], itemCount))
        decreases |data| - current
      {
        ghost var bs := data[current..];
        ghost var from := current;
        HopFails(bs);
        var more, ok := SkipOne();
        if !ok { return; }
        assert data[current..] == bs[current - from..];
        itemCount := itemCount - 1 + more;
      }
    }

    /** cw_look_ahead: the type of the next item, with `current` back where it was. */
    method PeekType() returns (kind: int)
      requires Valid()
      modifies this
      ensures Valid() && current == old(current) && word == old(word)
      ensures old(returnCode) != RC_OK ==> kind == NOT_AN_ITEM && State() == old(State())
      ensures old(returnCode) == RC_OK ==>
                match LookAhead(data[current..])
                case Next(k) => kind == k && State() == old(State())
                case Nothing(code) => kind == NOT_AN_ITEM && returnCode == code && last == NotAnItem
    {
      if returnCode != RC_OK { return NOT_AN_ITEM; }
      ghost var bs := data[current..];
      var p, ok := AssertSpace(1, RC_END_OF_INPUT);
      if !ok { return NOT_AN_ITEM; }
      current := current - 1;
      match GlanceOf(data[p])
      case Named(k) => kind := k;
      case KindByte(at) => kind := PeekKind(at);
    }

    /** The type byte of an extension, read and stepped back over. */
    method PeekKind(at: nat) returns (kind: int)
      requires Valid() && returnCode == RC_OK
      modifies this
      ensures Valid() && current == old(current) && word == old(word)
      ensures match KindAt(data[current..], at)
              case Next(k) => kind == k && State() == old(State())
              case Nothing(code) => kind == NOT_AN_ITEM && returnCode == code && last == NotAnItem
    {
      var p, ok := AssertSpace(at + 1, RC_BUFFER_UNDERFLOW);
      if !ok { return NOT_AN_ITEM; }
      current := current - (at + 1);
      kind := Signed(data[p + at], 1);
    }
  }

  lemma HopFails(bs: seq<byte>)
    ensures HopOne(bs).Stop? ==> HopOne(bs).code != RC_OK
  {
  }
}
