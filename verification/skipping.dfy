/** The two other readers of the item language: cw_skip_items, which walks nested values with a single
    counter, and cw_look_ahead, which names the next item without consuming it. */
module Skipping {
  import opened Bytes
  import opened Items
  import opened Codec

  // ---------------------------------------------------------------- cw_skip_items

  /** One constructor for each form of case in cw_skip_items' switch. */
  datatype Hop =
    | NoHop
    | Jump(n: nat)                       // cw_skip_bytes(n)
    | LongJump(lead: nat, extra: nat)    // a length field, then cw_skip_bytes(length + extra)
    | Grow(more: nat)                    // item_count += more
    | LongGrow(lead: nat, factor: nat)   // a size field, then item_count += factor * size

  function HopOf(c: byte): Hop {
    if c < 0x80 || c >= 0xe0 then Jump(0)
    else if c < 0x90 then Grow(2 * (c - 0x80))
    else if c < 0xa0 then Grow(c - 0x90)
    else if c < 0xc0 then Jump(c - 0xa0)
    else match c
      case 0xc0 => Jump(0)
      case 0xc2 => Jump(0)
      case 0xc3 => Jump(0)
      case 0xcc => Jump(1)
      case 0xd0 => Jump(1)
      case 0xcd => Jump(2)
      case 0xd1 => Jump(2)
      case 0xd4 => Jump(2)
      case 0xd5 => Jump(3)
      case 0xca => Jump(4)
      case 0xce => Jump(4)
      case 0xd2 => Jump(4)
      case 0xd6 => Jump(5)
      case 0xcb => Jump(8)
      case 0xcf => Jump(8)
      case 0xd3 => Jump(8)
      case 0xd7 => Jump(9)
      case 0xd8 => Jump(17)
      case 0xd9 => LongJump(1, 0)
      case 0xc4 => LongJump(1, 0)
      case 0xda => LongJump(2, 0)
      case 0xc5 => LongJump(2, 0)
      case 0xdb => LongJump(4, 0)
      case 0xc6 => LongJump(4, 0)
      case 0xdc => LongGrow(2, 1)
      case 0xde => LongGrow(2, 2)
      case 0xdd => LongGrow(4, 1)
      case 0xdf => LongGrow(4, 2)
      case 0xc7 => LongJump(1, 1)
      case 0xc8 => LongJump(2, 1)
      case 0xc9 => LongJump(4, 1)
      case _ => NoHop
  }

  datatype Hopped = Step(used: nat, more: nat) | Stop(code: int, used: nat)

  /** One turn of the loop; the sums and products on 32-bit fields are 32-bit. */
  function HopOne(bs: seq<byte>): (r: Hopped)
    ensures r.used <= |bs| && (r.Step? ==> r.used >= 1)
  {
    if bs == [] then Stop(RC_END_OF_INPUT, 0)
    else match HopOf(bs[0])
      case NoHop => Stop(RC_MALFORMED_INPUT, 1)
      case Jump(n) => if |bs| < 1 + n then Stop(RC_BUFFER_UNDERFLOW, 1) else Step(1 + n, 0)
      case LongJump(lead, extra) =>
        if |bs| < 1 + lead then Stop(RC_BUFFER_UNDERFLOW, 1)
        else
          var n := (Load(bs[1..1 + lead]) + extra) % 0x1_0000_0000;
          if |bs| < 1 + lead + n then Stop(RC_BUFFER_UNDERFLOW, 1 + lead) else Step(1 + lead + n, 0)
      case Grow(more) => Step(1, more)
      case LongGrow(lead, factor) =>
        if |bs| < 1 + lead then Stop(RC_BUFFER_UNDERFLOW, 1)
        else Step(1 + lead, factor * Load(bs[1..1 + lead]) % 0x1_0000_0000)
  }

  /** How far `current` moves, and the return code. */
  datatype Skipped = Skipped(used: nat, code: int)

  function Skip(bs: seq<byte>, count: int): (r: Skipped)
    ensures r.used <= |bs|
    decreases |bs|
  {
    if count <= 0 then Skipped(0, RC_OK)
    else match HopOne(bs)
      case Stop(code, used) => Skipped(used, code)
      case Step(used, more) => After(used, Skip(bs[used..], count - 1 + more))
  }

  function After(used: nat, r: Skipped): Skipped {
    Skipped(used + r.used, r.code)
  }

  // ---------------------------------------------------------------- the recursive grammar

  /** How many values follow an item as its contents. */
  function Children(item: Item): nat {
    match item
    case Array(n) => n
    case Map(n) => 2 * n
    case _ => 0
  }

  /** Headers whose 32-bit sum or product wraps in the skipper. */
  predicate Wraps(item: Item) {
    (item.Map? && 2 * item.pairs >= TWO32) || (item.Ext? && |item.body| + 1 >= TWO32)
  }

  /** The same, seen on the bytes before the contents are known to be there. */
  predicate WrapsAt(bs: seq<byte>) {
    |bs| >= 5 && ((bs[0] == 0xdf && 2 * Load(bs[1..5]) >= TWO32) || (bs[0] == 0xc9 && Load(bs[1..5]) + 1 >= TWO32))
  }

  /** The values read by recursive descent; `Skewed` marks the headers cw_skip_items takes differently:
      the wrapping ones and the timestamps of a length cw_unpack_next refuses. */
  datatype Parse = Values(used: nat) | Broken(code: int) | Skewed

  function Descend(bs: seq<byte>, k: nat): (r: Parse)
    ensures r.Values? ==> r.used <= |bs|
    decreases |bs|, k, 1
  {
    if k == 0 then Values(0)
    else if WrapsAt(bs) then Skewed
    else match Decode(bs)
      case Fail(code, _) => if code == RC_WRONG_TIMESTAMP_LENGTH then Skewed else Broken(code)
      case Ok(item, n) =>
        DecodeBounds(bs);
        AfterContents(bs, k, n, Descend(bs[n..], Children(item)))
  }

  /** The values that follow one whose header has `n` bytes and whose contents have been read. */
  function AfterContents(bs: seq<byte>, k: nat, n: nat, inner: Parse): (r: Parse)
    requires k >= 1 && 1 <= n <= |bs| && (inner.Values? ==> n + inner.used <= |bs|)
    ensures r.Values? ==> r.used <= |bs|
    decreases |bs|, k, 0
  {
    if !inner.Values? then inner
    else
      var outer := Descend(bs[n + inner.used..], k - 1);
      if !outer.Values? then outer else Values(n + inner.used + outer.used)
  }

  // ---------------------------------------------------------------- one header

  /** The two switches agree, case by case. */
  lemma TablesAgree(c: byte)
    ensures match ShapeOf(c)
            case Illegal => HopOf(c) == NoHop
            case Whole(item) =>
              !Wraps(item) && HopOf(c) == (if item.Array? || item.Map? then Grow(Children(item)) else Jump(0))
            case Number(f, w) =>
              && (f == FMap && w == 4 ==> c == 0xdf)
              && HopOf(c) == (if f == FArray then LongGrow(w, 1) else if f == FMap then LongGrow(w, 2) else Jump(w))
            case Blob(_, lead, inline) => HopOf(c) == (if lead == 0 then Jump(inline) else LongJump(lead, 0))
            case WideExt(lead) => (lead == 4 ==> c == 0xc9) && HopOf(c) == LongJump(lead, 1)
            case FixExt(len) => HopOf(c) == Jump(len + 1)
    ensures c == 0xdf ==> ShapeOf(c) == Number(FMap, 4)
    ensures c == 0xc9 ==> ShapeOf(c) == WideExt(4)
  {
  }

  ghost predicate HopAgrees(bs: seq<byte>) {
    match Decode(bs)
    case Ok(item, n) => HopOne(bs) == Step(n, Children(item))
    case Fail(code, _) => HopOne(bs).Stop? && HopOne(bs).code == code
  }

  lemma HopNumber(bs: seq<byte>, f: Field, w: nat)
    requires |bs| >= 1 && ShapeOf(bs[0]) == Number(f, w) && !WrapsAt(bs)
    ensures HopAgrees(bs)
  {
    hide Signed, Load, HopOf, ShapeOf;
    Shapes(bs[0]);
    TablesAgree(bs[0]);
    if |bs| >= 1 + w && w <= 4 {
      LengthBound(bs[1..1 + w]);
      if w == 2 {
        ShortLength(bs[1..1 + w]);
      }
    }
  }

  lemma HopBlob(bs: seq<byte>, text: bool, lead: nat, inline: nat)
    requires |bs| >= 1 && ShapeOf(bs[0]) == Blob(text, lead, inline)
    ensures HopAgrees(bs)
  {
    hide Load, HopOf, ShapeOf;
    Shapes(bs[0]);
    TablesAgree(bs[0]);
    NoBytes();
    if |bs| >= 1 + lead {
      LengthBound(bs[1..1 + lead]);
    }
  }

  lemma HopWideExt(bs: seq<byte>, lead: nat)
    requires |bs| >= 1 && ShapeOf(bs[0]) == WideExt(lead) && !WrapsAt(bs)
    requires !(Decode(bs).Fail? && Decode(bs).code == RC_WRONG_TIMESTAMP_LENGTH)
    ensures HopAgrees(bs)
  {
    hide Load, Signed, HopOf, ShapeOf;
    Shapes(bs[0]);
    TablesAgree(bs[0]);
    if |bs| >= 1 + lead {
      LengthBound(bs[1..1 + lead]);
      if lead <= 2 {
        ShortLength(bs[1..1 + lead]);
      }
    }
  }

  lemma HopFixExt(bs: seq<byte>, len: nat)
    requires |bs| >= 1 && ShapeOf(bs[0]) == FixExt(len)
    requires !(Decode(bs).Fail? && Decode(bs).code == RC_WRONG_TIMESTAMP_LENGTH)
    ensures HopAgrees(bs)
  {
    hide Load, Signed, HopOf, ShapeOf;
    Shapes(bs[0]);
    TablesAgree(bs[0]);
  }

  lemma ShortLength(field: seq<byte>)
    requires 1 <= |field| <= 2
    ensures Load(field) < 0x1_0000
  {
    Powers();
    StoreLoad(field);
  }

  /** On a header it does not take differently, the skipper moves as the reader does. */
  lemma HopIsDecode(bs: seq<byte>)
    requires !WrapsAt(bs) && !(Decode(bs).Fail? && Decode(bs).code == RC_WRONG_TIMESTAMP_LENGTH)
    ensures HopAgrees(bs)
  {
    hide HopOf, ShapeOf;
    if bs != [] {
      TablesAgree(bs[0]);
      match ShapeOf(bs[0])
      case Number(f, w) => HopNumber(bs, f, w);
      case Blob(text, lead, inline) => HopBlob(bs, text, lead, inline);
      case WideExt(lead) => HopWideExt(bs, lead);
      case FixExt(len) => HopFixExt(bs, len);
      case _ =>
    }
  }

  // ---------------------------------------------------------------- main results

  lemma SkipTurn(bs: seq<byte>, count: nat)
    requires HopAgrees(bs) && count >= 1
    ensures match Decode(bs)
            case Ok(item, n) =>
              n <= |bs| && Skip(bs, count) == After(n, Skip(bs[n..], count - 1 + Children(item)))
            case Fail(code, _) => Skip(bs, count).code == code
  {
    hide Decode;
  }

  lemma DescendNothing(bs: seq<byte>)
    ensures Descend(bs, 0) == Values(0)
  {
  }

  lemma {:induction false} DescendTurn(bs: seq<byte>, k: nat)
    requires k >= 1 && !Descend(bs, k).Skewed?
    ensures HopAgrees(bs)
    ensures match Decode(bs)
            case Fail(code, _) => Descend(bs, k) == Broken(code)
            case Ok(item, n) =>
              && 1 <= n <= |bs|
              && var inner := Descend(bs[n..], Children(item));
                 if !inner.Values? then Descend(bs, k) == inner
                 else
                   var outer := Descend(bs[n + inner.used..], k - 1);
                   Descend(bs, k) == if outer.Values? then Values(n + inner.used + outer.used) else outer
  {
    hide Decode, HopAgrees, WrapsAt, Children;
    HopIsDecode(bs);
    DecodeBounds(bs);
  }

  /** On arbitrary bytes the counter loop does what recursive descent does: with `j` more items pending it
      stops after the `k` values and goes on from there, or fails with the same return code. */
  lemma {:induction false} SkipIsDescent(bs: seq<byte>, k: nat, j: nat)
    ensures match Descend(bs, k)
            case Values(m) => Skip(bs, k + j) == After(m, Skip(bs[m..], j))
            case Broken(code) => Skip(bs, k + j).code == code
            case Skewed => true
    decreases |bs|, k
  {
    hide Decode, HopAgrees, Descend, Skip, Children;
    if k == 0 {
      DescendNothing(bs);
      assert bs[0..] == bs;
    } else if !Descend(bs, k).Skewed? {
      DescendTurn(bs, k);
      SkipTurn(bs, k + j);
      if Decode(bs).Ok? {
        var n, c := Decode(bs).used, Children(Decode(bs).item);
        var after := bs[n..];
        SkipIsDescent(after, c, k - 1 + j);
        if Descend(after, c).Values? {
          var m := Descend(after, c).used;
          assert after[m..] == bs[n + m..];
          SkipIsDescent(bs[n + m..], k - 1, j);
          if Descend(bs[n + m..], k - 1).Values? {
            var o := Descend(bs[n + m..], k - 1).used;
            assert bs[n + m..][o..] == bs[n + m + o..];
          }
        }
      }
    }
  }

  // ---------------------------------------------------------------- nested values

  /** A value with the values it contains; a map contains its keys and values in turn. */
  datatype Value = Value(item: Item, children: seq<Value>)

  ghost predicate Wellformed(vs: seq<Value>) {
    forall v :: v in vs ==>
      && v.item.Representable() && Wire(v.item, false).Sent? && !ShamTimestamp(v.item)
      && |v.children| == Children(v.item)
      && Wellformed(v.children)
  }

  /** No header anywhere whose 32-bit arithmetic wraps. */
  ghost predicate Modest(vs: seq<Value>) {
    forall v :: v in vs ==> !Wraps(v.item) && Modest(v.children)
  }

  function WireValues(vs: seq<Value>): seq<byte>
    requires Wellformed(vs)
  {
    if vs == [] then []
    else Wire(vs[0].item, false).bytes + WireValues(vs[0].children) + WireValues(vs[1..])
  }

  /** The wrapping headers are the same seen as bytes or as items. */
  lemma WrapSeen(bs: seq<byte>)
    requires Decode(bs).Ok?
    ensures WrapsAt(bs) <==> Wraps(Decode(bs).item)
  {
    hide Load, Signed, HopOf, ShapeOf;
    Shapes(bs[0]);
    TablesAgree(bs[0]);
    DecodeBounds(bs);
    match ShapeOf(bs[0])
    case Number(f, w) =>
      if w == 2 {
        ShortLength(bs[1..1 + w]);
      }
    case WideExt(lead) =>
      if lead <= 2 {
        ShortLength(bs[1..1 + lead]);
      }
    case _ =>
  }

  lemma FirstValue(v: Value, rest: seq<byte>)
    requires Wellformed([v])
    ensures var head := Wire(v.item, false).bytes;
            && Decode(head + rest) == Ok(v.item, |head|) && (head + rest)[|head|..] == rest
            && (WrapsAt(head + rest) <==> Wraps(v.item))
  {
    hide Decode, Wire, WrapsAt, Wraps;
    assert v in [v];
    var head := Wire(v.item, false).bytes;
    RoundTrip(v.item, false, rest);
    WrapSeen(head + rest);
  }

  lemma {:induction false} DescendFirst(bs: seq<byte>, k: nat, item: Item, n: nat, m: nat)
    requires k >= 1 && Decode(bs) == Ok(item, n) && !WrapsAt(bs) && n <= |bs|
    requires Descend(bs[n..], Children(item)) == Values(m)
    ensures n + m <= |bs|
    ensures Descend(bs[n + m..], k - 1).Values? ==>
              Descend(bs, k) == Values(n + m + Descend(bs[n + m..], k - 1).used)
  {
    hide Decode, WrapsAt, Children, Descend;
    DescendItem(bs, k, item, n);
  }

  lemma {:induction false} DescendItem(bs: seq<byte>, k: nat, item: Item, n: nat)
    requires k >= 1 && !WrapsAt(bs) && Decode(bs) == Ok(item, n)
    ensures n <= |bs|
    ensures Descend(bs, k) == AfterContents(bs, k, n, Descend(bs[n..], Children(item)))
  {
    hide Decode, WrapsAt, Children, AfterContents;
    DecodeBounds(bs);
  }

  /** Recursive descent reads nested values to their end. */
  lemma {:induction false} DescendValues(vs: seq<Value>, rest: seq<byte>)
    requires Wellformed(vs) && Modest(vs)
    ensures Descend(WireValues(vs) + rest, |vs|) == Values(|WireValues(vs)|)
    decreases vs
  {
    hide Decode, Wire, WrapsAt, Wraps, Descend;
    var bs := WireValues(vs) + rest;
    if vs == [] {
      DescendNothing(bs);
    } else {
      var v, tail := vs[0], vs[1..];
      assert v in vs;
      var head := Wire(v.item, false).bytes;
      var inside, after := WireValues(v.children), WireValues(tail);
      assert bs == head + (inside + (after + rest));
      FirstValue(v, inside + (after + rest));
      DescendValues(v.children, after + rest);
      assert bs[|head| + |inside|..] == after + rest;
      DescendValues(tail, rest);
      DescendFirst(bs, |vs|, v.item, |head|, |inside|);
    }
  }

  lemma SkipNothing(bs: seq<byte>)
    ensures Skip(bs, 0) == Skipped(0, RC_OK)
  {
  }

  /** The counter loop stops exactly after the values, whatever follows them. */
  lemma SkipValues(vs: seq<Value>, rest: seq<byte>)
    requires Wellformed(vs) && Modest(vs)
    ensures Skip(WireValues(vs) + rest, |vs|) == Skipped(|WireValues(vs)|, RC_OK)
  {
    hide Descend, Skip, WireValues;
    DescendValues(vs, rest);
    var bs := WireValues(vs) + rest;
    SkipIsDescent(bs, |vs|, 0);
    SkipNothing(bs[|WireValues(vs)|..]);
  }

  lemma WellformedParts(vs: seq<Value>, k: nat)
    requires Wellformed(vs) && k <= |vs|
    ensures Wellformed(vs[..k]) && Wellformed(vs[k..])
  {
  }

  lemma NoValues()
    ensures WireValues([]) == []
  {
  }

  lemma FirstThenRest(vs: seq<Value>)
    requires Wellformed(vs) && vs != []
    ensures Wellformed(vs[1..])
    ensures WireValues(vs) == Wire(vs[0].item, false).bytes + WireValues(vs[0].children) + WireValues(vs[1..])
  {
    hide Wire;
  }

  lemma {:induction false} WireValuesAt(vs: seq<Value>, k: nat)
    requires Wellformed(vs) && k <= |vs|
    ensures WireValues(vs) == WireValues(vs[..k]) + WireValues(vs[k..])
  {
    hide WireValues, Wellformed;
    WellformedParts(vs, k);
    if k == 0 {
      NoValues();
      assert vs[..0] == [] && vs[0..] == vs;
    } else {
      var tail := vs[1..];
      WellformedParts(vs, 1);
      WellformedParts(tail, k - 1);
      WireValuesAt(tail, k - 1);
      FirstThenRest(vs);
      FirstThenRest(vs[..k]);
      assert vs[..k][1..] == tail[..k - 1] && vs[k..] == tail[k - 1..];
    }
  }

  lemma SomeBytes(vs: seq<Value>)
    requires Wellformed(vs) && vs != []
    ensures |WireValues(vs)| > 0
  {
    hide Wire;
    PackedNotSigned(vs[0].item, false);
  }

  lemma HopWraps(bs: seq<byte>)
    requires Decode(bs).Ok? && Wraps(Decode(bs).item)
    ensures var item := Decode(bs).item;
            HopOne(bs) == Step(5, if item.Map? then 2 * item.pairs - TWO32 else 0)
  {
    hide Load, Signed, HopOf, ShapeOf;
    WrapSeen(bs);
    Shapes(bs[0]);
    TablesAgree(bs[0]);
    LengthBound(bs[1..5]);
  }

  lemma WrapHead(item: Item)
    requires item.Representable() && Wire(item, false).Sent? && Wraps(item)
    ensures |Wire(item, false).bytes| == 5 + (if item.Ext? then 1 + |item.body| else 0)
  {
    hide Store;
  }

  lemma SkipOneStep(bs: seq<byte>, n: nat, more: nat)
    requires HopOne(bs) == Step(n, more) && n <= |bs|
    ensures Skip(bs, 1) == After(n, Skip(bs[n..], more))
  {
  }

  lemma SkipShort(v: Value, rest: seq<byte>)
    requires Wellformed([v]) && Modest(v.children) && Wraps(v.item)
    ensures Skip(WireValues([v]) + rest, 1).used < |WireValues([v])|
  {
    hide Decode, Wire, HopOne, Skip, WireValues;
    assert v in [v];
    var head := Wire(v.item, false).bytes;
    var inside := WireValues(v.children);
    OneValue(v);
    var bs := head + (inside + rest);
    assert WireValues([v]) + rest == bs;
    FirstValue(v, inside + rest);
    HopWraps(bs);
    WrapHead(v.item);
    if v.item.Map? {
      var k := 2 * v.item.pairs - TWO32;
      SkipOneStep(bs, 5, k);
      WireValuesAt(v.children, k);
      SomeBytes(v.children[k..]);
      var most, others := WireValues(v.children[..k]), WireValues(v.children[k..]);
      SkipValues(v.children[..k], others + rest);
      assert bs[5..] == most + (others + rest);
    } else {
      SkipOneStep(bs, 5, 0);
      SkipNothing(bs[5..]);
    }
  }

  lemma OneValue(v: Value)
    requires Wellformed([v])
    ensures WireValues([v]) == Wire(v.item, false).bytes + WireValues(v.children)
  {
    hide Wire;
    assert [v][1..] == [] && WireValues([]) == [];
  }

  /** When the contents are modest, a value is skipped exactly when its own header does not wrap. */
  lemma SkipExactly(v: Value, rest: seq<byte>)
    requires Wellformed([v]) && Modest(v.children)
    ensures Skip(WireValues([v]) + rest, 1) == Skipped(|WireValues([v])|, RC_OK) <==> !Wraps(v.item)
  {
    if Wraps(v.item) {
      SkipShort(v, rest);
    } else {
      SkipValues([v], rest);
    }
  }

  /** No extension of 2^32 - 1 bytes anywhere. */
  ghost predicate NoLongExt(vs: seq<Value>) {
    forall v :: v in vs ==> !(v.item.Ext? && Wraps(v.item)) && NoLongExt(v.children)
  }

  lemma Opened(v: Value, tail: seq<Value>)
    requires Wellformed([v] + tail) && NoLongExt([v] + tail)
    ensures Wellformed([v]) && Wellformed(v.children) && Wellformed(tail) && |v.children| == Children(v.item)
    ensures Wellformed(v.children + tail) && NoLongExt(v.children + tail) && !(v.item.Ext? && Wraps(v.item))
    ensures Modest([v] + tail) <==> !Wraps(v.item) && Modest(v.children + tail)
  {
    hide Wire, Wraps, Children;
    var all, inside := [v] + tail, v.children + tail;
    assert v in all && v in [v];
    assert forall w :: w in tail ==> w in all && w in inside;
    assert forall w :: w in v.children ==> w in inside;
    assert Modest(v.children + tail) <==> Modest(v.children) && Modest(tail);
  }

  lemma HopOverHead(v: Value, rest: seq<byte>) returns (more: nat)
    requires Wellformed([v]) && !(v.item.Ext? && Wraps(v.item)) && v.item.Representable()
    requires Wire(v.item, false).Sent?
    ensures HopOne(Wire(v.item, false).bytes + rest) == Step(|Wire(v.item, false).bytes|, more)
    ensures more <= Children(v.item) && (more == Children(v.item) <==> !Wraps(v.item))
  {
    hide Decode, Wire, HopOne, WrapsAt;
    assert v in [v];
    var bs := Wire(v.item, false).bytes + rest;
    FirstValue(v, rest);
    if Wraps(v.item) {
      HopWraps(bs);
      WrapHead(v.item);
      more := 2 * v.item.pairs - TWO32;
    } else {
      HopIsDecode(bs);
      more := Children(v.item);
    }
  }

  lemma SkipStep(bs: seq<byte>, c: nat, n: nat, more: nat)
    requires c >= 1 && HopOne(bs) == Step(n, more) && n <= |bs|
    ensures Skip(bs, c) == After(n, Skip(bs[n..], c - 1 + more))
  {
  }

  lemma WireJoined(a: seq<Value>, b: seq<Value>)
    requires Wellformed(a) && Wellformed(b) && Wellformed(a + b)
    ensures WireValues(a + b) == WireValues(a) + WireValues(b)
  {
    hide WireValues, Wellformed;
    WireValuesAt(a + b, |a|);
    assert (a + b)[..|a|] == a && (a + b)[|a|..] == b;
  }

  /** The counter never outruns the values: it stops at their end exactly when it was as large as their
      number and no map inside, however deep, has a size whose double wraps; otherwise it stops earlier. */
  lemma {:induction false} SkipCounted(vs: seq<Value>, c: nat, rest: seq<byte>)
    requires Wellformed(vs) && NoLongExt(vs) && c <= |vs|
    ensures var r := Skip(WireValues(vs) + rest, c);
            && r.code == RC_OK && r.used <= |WireValues(vs)|
            && (r.used == |WireValues(vs)| <==> c == |vs| && Modest(vs))
    decreases |WireValues(vs)|
  {
    hide Decode, Wire, HopOne, Skip, WireValues, Wraps, WrapsAt, Wellformed, NoLongExt, Modest, Children;
    if c == 0 {
      SkipNothing(WireValues(vs) + rest);
      NoValues();
      if vs != [] {
        SomeBytes(vs);
      } else {
        NothingModest();
      }
    } else {
      var v, tail := vs[0], vs[1..];
      assert vs == [v] + tail;
      Opened(v, tail);
      WellformedItem(v);
      FirstThenRest(vs);
      WireJoined(v.children, tail);
      var inside := v.children + tail;
      var head, after := Wire(v.item, false).bytes, WireValues(inside) + rest;
      assert WireValues(vs) + rest == head + after;
      FirstValue(v, after);
      PackedNotSigned(v.item, false);
      var more := HopOverHead(v, after);
      SkipStep(head + after, c, |head|, more);
      SkipCounted(inside, c - 1 + more, rest);
    }
  }

  lemma NothingModest()
    ensures Modest([])
  {
  }

  lemma WellformedItem(v: Value)
    requires Wellformed([v])
    ensures v.item.Representable() && Wire(v.item, false).Sent?
  {
    hide Wire;
    assert v in [v];
  }

  /** However deep the nesting, a value is skipped exactly when no map in it has 2^31 pairs or more. */
  lemma SkipNestedExactly(v: Value, rest: seq<byte>)
    requires Wellformed([v]) && NoLongExt([v])
    ensures Skip(WireValues([v]) + rest, 1) == Skipped(|WireValues([v])|, RC_OK) <==> Modest([v])
  {
    hide Skip, WireValues, Wellformed, NoLongExt, Modest;
    SkipCounted([v], 1, rest);
  }

  // ---------------------------------------------------------------- cw_look_ahead

  /** What a first byte says: the type itself, or where the extension's type byte is. */
  datatype Glance = Named(kind: int) | KindByte(at: nat)

  function GlanceOf(c: byte): Glance {
    if c < 0x80 then Named(TYPE_POSITIVE)
    else if c < 0x90 then Named(TYPE_MAP)
    else if c < 0xa0 then Named(TYPE_ARRAY)
    else if c < 0xc0 then Named(TYPE_STR)
    else if c >= 0xe0 then Named(TYPE_NEGATIVE)
    else match c
      case 0xc0 => Named(TYPE_NIL)
      case 0xc2 => Named(TYPE_BOOLEAN)
      case 0xc3 => Named(TYPE_BOOLEAN)
      case 0xc4 => Named(TYPE_BIN)
      case 0xc5 => Named(TYPE_BIN)
      case 0xc6 => Named(TYPE_BIN)
      case 0xc7 => KindByte(2)
      case 0xc8 => KindByte(3)
      case 0xc9 => KindByte(5)
      case 0xca => Named(TYPE_FLOAT)
      case 0xcb => Named(TYPE_DOUBLE)
      case 0xcc => Named(TYPE_POSITIVE)
      case 0xcd => Named(TYPE_POSITIVE)
      case 0xce => Named(TYPE_POSITIVE)
      case 0xcf => Named(TYPE_POSITIVE)
      case 0xd0 => Named(TYPE_NEGATIVE)
      case 0xd1 => Named(TYPE_NEGATIVE)
      case 0xd2 => Named(TYPE_NEGATIVE)
      case 0xd3 => Named(TYPE_NEGATIVE)
      case 0xd4 => KindByte(1)
      case 0xd5 => KindByte(1)
      case 0xd6 => KindByte(1)
      case 0xd7 => KindByte(1)
      case 0xd8 => KindByte(1)
      case 0xd9 => Named(TYPE_STR)
      case 0xda => Named(TYPE_STR)
      case 0xdb => Named(TYPE_STR)
      case 0xdc => Named(TYPE_ARRAY)
      case 0xdd => Named(TYPE_ARRAY)
      case 0xde => Named(TYPE_MAP)
      case 0xdf => Named(TYPE_MAP)
      case _ => Named(NOT_AN_ITEM)
  }

  /** The type of the next item, or the return code. */
  datatype Glimpse = Next(kind: int) | Nothing(code: int)

  function LookAhead(bs: seq<byte>): Glimpse {
    if bs == [] then Nothing(RC_END_OF_INPUT)
    else match GlanceOf(bs[0])
      case Named(kind) => Next(kind)
      case KindByte(at) => KindAt(bs, at)
  }

  /** The signed type byte at `at`, if the buffer reaches that far. */
  function KindAt(bs: seq<byte>, at: nat): Glimpse {
    if |bs| <= at then Nothing(RC_BUFFER_UNDERFLOW) else Next(Signed(bs[at], 1))
  }

  /** A non-negative number in one of the signed formats. */
  predicate SignedButPositive(bs: seq<byte>) {
    |bs| >= 1 && 0xd0 <= bs[0] <= 0xd3 && Decode(bs).Ok? && Decode(bs).item.PosInt?
  }

  lemma GlanceTable(c: byte)
    ensures match ShapeOf(c)
            case Illegal => GlanceOf(c) == Named(NOT_AN_ITEM)
            case Whole(item) => GlanceOf(c) == Named(item.Type())
            case Number(f, w) => GlanceOf(c) == Named(if f == FSigned then TYPE_NEGATIVE else NumberItem(f, 0, w).Type())
            case Blob(text, _, _) => GlanceOf(c) == Named(if text then TYPE_STR else TYPE_BIN)
            case WideExt(lead) => GlanceOf(c) == KindByte(1 + lead)
            case FixExt(_) => GlanceOf(c) == KindByte(1)
    ensures 0xd0 <= c <= 0xd3 <==> ShapeOf(c).Number? && ShapeOf(c).field == FSigned
  {
    hide Signed;
  }

  /** On bytes the reader accepts, looking ahead names the type the reader reports except exactly for
      non-negative numbers in a signed format, which it calls negative. */
  lemma LookAheadAgrees(bs: seq<byte>)
    requires Decode(bs).Ok?
    ensures LookAhead(bs) == Next(Decode(bs).item.Type()) <==> !SignedButPositive(bs)
    ensures SignedButPositive(bs) ==> LookAhead(bs) == Next(TYPE_NEGATIVE)
  {
    hide Load, Signed, GlanceOf, ShapeOf;
    DecodeBounds(bs);
    GlanceTable(bs[0]);
  }

  /** Where an extension's type stands. */
  function KindPlace(c: byte): nat {
    match c
    case 0xc7 => 2
    case 0xc8 => 3
    case 0xc9 => 5
    case _ => 1
  }

  /** An item cut short is named as the whole item is, as soon as its first byte is there, or for extensions and
      timestamps their type; before that it is an underflow, or the end of input when nothing is there. */
  lemma LookAheadCut(bs: seq<byte>, k: nat)
    requires Decode(bs).Ok? && k <= |bs|
    ensures LookAhead(bs[..k]) ==
              if k == 0 then Nothing(RC_END_OF_INPUT)
              else if (Decode(bs).item.Ext? || Decode(bs).item.Time?) && k <= KindPlace(bs[0])
              then Nothing(RC_BUFFER_UNDERFLOW)
              else LookAhead(bs)
  {
    hide Load, Signed, GlanceOf, ShapeOf;
    DecodeBounds(bs);
    GlanceTable(bs[0]);
    KindTable(bs[0]);
  }

  lemma KindTable(c: byte)
    ensures match ShapeOf(c)
            case WideExt(lead) => KindPlace(c) == 1 + lead
            case FixExt(_) => KindPlace(c) == 1
            case Whole(item) => !item.Ext? && !item.Time?
            case _ => true
  {
  }

  /** The packer never writes those, so on its output the two always agree. */
  lemma LookAheadAtPacked(item: Item, compat: bool, rest: seq<byte>)
    requires item.Representable() && Wire(item, compat).Sent? && !ShamTimestamp(item)
    ensures LookAhead(Wire(item, compat).bytes + rest) == Next(AsRead(item, compat).Type())
  {
    var bs := Wire(item, compat).bytes + rest;
    RoundTrip(item, compat, rest);
    LookAheadAgrees(bs);
    PackedNotSigned(item, compat);
    hide Decode, Wire, LookAhead;
  }

  lemma PackedNotSigned(item: Item, compat: bool)
    requires item.Representable() && Wire(item, compat).Sent?
    ensures var b := Wire(item, compat).bytes; |b| >= 1 && (0xd0 <= b[0] <= 0xd3 ==> item.NegInt?)
  {
    hide Store;
  }
}
