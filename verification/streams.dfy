/** Whole streams: many pack calls into one bounded buffer, and reading until the reader stops. */
module Streams {
  import opened Bytes
  import opened Items
  import opened Codec

  // ---------------------------------------------------------------- reading

  datatype Drained = Drained(items: seq<Item>, code: int)

  /** cw_unpack_next called until the return code is set. */
  function Drain(bs: seq<byte>): Drained
    decreases |bs|
  {
    match Decode(bs)
    case Fail(code, _) => Drained([], code)
    case Ok(item, used) =>
      DecodeBounds(bs);
      var d := Drain(bs[used..]);
      Drained([item] + d.items, d.code)
  }

  /** Where the first `j` items end. */
  function Offset(bs: seq<byte>, j: nat): (n: nat)
    requires j <= |Drain(bs).items|
    ensures n <= |bs|
    decreases j
  {
    if j == 0 then 0
    else
      DecodeBounds(bs);
      var used := Decode(bs).used;
      used + Offset(bs[used..], j - 1)
  }

  /** A stream cut at `k` yields the items that end at or before `k`; the reader then reports
      the end of input on an item boundary and an underflow anywhere else. */
  lemma {:induction false} CutStream(bs: seq<byte>, k: nat)
    requires k <= |bs| && Drain(bs).code == RC_END_OF_INPUT
    ensures var d := Drain(bs[..k]);
            var j := |d.items|;
            && j <= |Drain(bs).items|
            && d.items == Drain(bs).items[..j]
            && Offset(bs, j) <= k
            && (j < |Drain(bs).items| ==> k < Offset(bs, j + 1))
            && d.code == (if k == Offset(bs, j) then RC_END_OF_INPUT else RC_BUFFER_UNDERFLOW)
    decreases |bs|
  {
    hide Decode;
    DecodeBounds(bs);
    EndOfInput(bs);
    EndOfInput(bs[..k]);
    var cut := bs[..k];
    if k > 0 {
      assert Decode(bs).Ok?;
      var n := Decode(bs).used;
      if k < n {
        DecodeCut(bs, k);
        assert Offset(bs, 1) == n;
      } else {
        PrefixDecodes(bs, k);
        assert cut[n..] == bs[n..][..k - n];
        CutStream(bs[n..], k - n);
        var j := |Drain(cut[n..]).items|;
        assert Drain(bs).items[..j + 1] == [Decode(bs).item] + Drain(bs[n..]).items[..j];
        assert Offset(bs, j + 1) == n + Offset(bs[n..], j);
      }
    }
  }

  /** The end of input is reported exactly on an empty buffer. */
  lemma EndOfInput(bs: seq<byte>)
    ensures Decode(bs).Fail? && Decode(bs).code == RC_END_OF_INPUT <==> bs == []
  {
  }

  /** Enough of the buffer gives the same first item as all of it. */
  lemma PrefixDecodes(bs: seq<byte>, k: nat)
    requires Decode(bs).Ok? && Decode(bs).used <= k <= |bs|
    ensures Decode(bs[..k]) == Decode(bs)
  {
    var d := Decode(bs[..k]);
    DecodeBounds(bs[..k]);
    assert bs == bs[..k] + bs[k..];
    if d.Ok? {
      DecodeExtends(bs[..k], bs[k..]);
    } else {
      PrefixNotFailing(bs, k);
    }
  }

  lemma PrefixNotFailing(bs: seq<byte>, k: nat)
    requires Decode(bs).Ok? && Decode(bs).used <= k <= |bs|
    ensures Decode(bs[..k]).Ok?
  {
    hide Load, Signed, NumberItem, BlobItem, TimeItem;
    DecodeBounds(bs);
    var cut := bs[..k];
    assert cut[0] == bs[0];
    match ShapeOf(bs[0])
    case Blob(text, lead, inline) =>
      assert cut[1..1 + lead] == bs[1..1 + lead];
    case WideExt(lead) =>
      assert cut[1..1 + lead] == bs[1..1 + lead];
    case _ =>
  }

  // ---------------------------------------------------------------- writing

  /** The bytes in [start, current), the room between start and end, and the return code. */
  datatype Packed = Packed(out: seq<byte>, room: nat, code: int)

  /** One pack call: nothing after an error, all of its bytes or none of them. */
  function Pack(p: Packed, w: Wired): Packed {
    if p.code != RC_OK then p
    else match w
      case Refused(code) => p.(code := code)
      case Sent(bytes) =>
        if |p.out| + |bytes| > p.room then p.(code := RC_BUFFER_OVERFLOW) else p.(out := p.out + bytes)
  }

  ghost predicate Representable(items: seq<Item>) {
    forall i :: 0 <= i < |items| ==> items[i].Representable()
  }

  function PackAll(p: Packed, items: seq<Item>, compat: bool): Packed
    requires Representable(items)
    decreases |items|
  {
    if items == [] then p
    else PackAll(Pack(p, Wire(items[0], compat)), items[1..], compat)
  }

  /** How many calls succeed before the first failure. */
  function Succeeded(p: Packed, items: seq<Item>, compat: bool): (k: nat)
    requires Representable(items)
    ensures k <= |items|
    decreases |items|
  {
    if items == [] || Pack(p, Wire(items[0], compat)).code != RC_OK then 0
    else 1 + Succeeded(Pack(p, Wire(items[0], compat)), items[1..], compat)
  }

  /** The concatenated encodings; a refused call contributes nothing. */
  function Concat(items: seq<Item>, compat: bool): seq<byte>
    requires Representable(items)
  {
    if items == [] then []
    else (match Wire(items[0], compat) case Sent(b) => b case Refused(_) => []) + Concat(items[1..], compat)
  }

  lemma {:induction false} Sticky(p: Packed, items: seq<Item>, compat: bool)
    requires Representable(items) && p.code != RC_OK
    ensures PackAll(p, items, compat) == p
    decreases |items|
  {
    if items != [] {
      Sticky(p, items[1..], compat);
    }
  }

  /** Whatever the buffer size, the buffer holds exactly the encodings of the calls before the first
      failure, and the return code is clear exactly when there was none. */
  lemma {:induction false} PackAllResult(p: Packed, items: seq<Item>, compat: bool)
    requires Representable(items) && p.code == RC_OK && |p.out| <= p.room
    ensures var k := Succeeded(p, items, compat);
            var r := PackAll(p, items, compat);
            && r.out == p.out + Concat(items[..k], compat)
            && r.room == p.room && |r.out| <= r.room
            && (r.code == RC_OK <==> k == |items|)
            && forall i :: 0 <= i < k ==> Wire(items[i], compat).Sent?
    decreases |items|
  {
    hide Wire;
    if items != [] {
      var q := Pack(p, Wire(items[0], compat));
      var k := Succeeded(p, items, compat);
      if q.code != RC_OK {
        Sticky(q, items[1..], compat);
        assert p.out + Concat([], compat) == p.out;
      } else {
        PackAllResult(q, items[1..], compat);
        var first := Wire(items[0], compat);
        if first.Refused? {
          RefusalIsAnError(items[0], compat);
        }
        assert first.Sent? && q.out == p.out + first.bytes;
        assert items[..k][1..] == items[1..][..k - 1];
        assert Concat(items[..k], compat) == first.bytes + Concat(items[1..][..k - 1], compat);
        assert p.out + (first.bytes + Concat(items[1..][..k - 1], compat))
            == q.out + Concat(items[1..][..k - 1], compat);
        forall i | 0 <= i < k
          ensures Wire(items[i], compat).Sent?
        {
          assert i > 0 ==> items[i] == items[1..][i - 1];
        }
      }
    }
  }

  /** Why packing stopped: the call that failed was refused with this code, or its bytes did not fit. */
  lemma {:induction false} FirstFailure(p: Packed, items: seq<Item>, compat: bool)
    requires Representable(items) && p.code == RC_OK && |p.out| <= p.room
    ensures var k := Succeeded(p, items, compat);
            var r := PackAll(p, items, compat);
            k < |items| ==>
              match Wire(items[k], compat)
              case Refused(code) => r.code == code
              case Sent(bytes) => r.code == RC_BUFFER_OVERFLOW && |r.out| + |bytes| > p.room
    decreases |items|
  {
    hide Wire;
    if items != [] {
      var q := Pack(p, Wire(items[0], compat));
      if q.code != RC_OK {
        Sticky(q, items[1..], compat);
      } else {
        if Wire(items[0], compat).Refused? {
          RefusalIsAnError(items[0], compat);
        }
        FirstFailure(q, items[1..], compat);
      }
    }
  }

  // ---------------------------------------------------------------- both

  function AllAsRead(items: seq<Item>, compat: bool): (r: seq<Item>)
    ensures |r| == |items|
  {
    if items == [] then [] else [AsRead(items[0], compat)] + AllAsRead(items[1..], compat)
  }

  ghost predicate Faithful(items: seq<Item>, compat: bool) {
    forall i :: 0 <= i < |items| ==>
      items[i].Representable() && Wire(items[i], compat).Sent? && !ShamTimestamp(items[i])
  }

  lemma FaithfulFirst(items: seq<Item>, compat: bool)
    requires Faithful(items, compat) && items != []
    ensures items[0].Representable() && Wire(items[0], compat).Sent? && !ShamTimestamp(items[0])
    ensures Faithful(items[1..], compat) && Representable(items[1..])
    ensures Concat(items, compat) == Wire(items[0], compat).bytes + Concat(items[1..], compat)
  {
    hide Wire;
  }

  /** Any list of items survives a trip through the wire, followed by any stream. */
  lemma {:induction false} StreamReads(items: seq<Item>, compat: bool, rest: seq<byte>)
    requires Faithful(items, compat)
    ensures Drain(Concat(items, compat) + rest)
         == Drained(AllAsRead(items, compat) + Drain(rest).items, Drain(rest).code)
  {
    hide Decode, Wire, Faithful, Drain;
    if items == [] {
      assert Concat(items, compat) + rest == rest;
      assert AllAsRead(items, compat) + Drain(rest).items == Drain(rest).items;
    } else {
      FaithfulFirst(items, compat);
      hide Concat;
      var first, item := Wire(items[0], compat).bytes, AsRead(items[0], compat);
      var tail := Concat(items[1..], compat) + rest;
      assert Concat(items, compat) + rest == first + tail;
      RoundTrip(items[0], compat, tail);
      DrainFirst(first, item, tail);
      StreamReads(items[1..], compat, rest);
      assert AllAsRead(items, compat) + Drain(rest).items
          == [item] + (AllAsRead(items[1..], compat) + Drain(rest).items);
    }
  }

  lemma DrainFirst(first: seq<byte>, item: Item, tail: seq<byte>)
    requires Decode(first + tail) == Ok(item, |first|)
    ensures Drain(first + tail) == Drained([item] + Drain(tail).items, Drain(tail).code)
  {
    hide Decode;
    assert (first + tail)[|first|..] == tail;
  }

  /** Pack any list into a buffer of any size and read the buffer back: exactly the items packed before
      the first failure come out, and the reader ends at the end of input. */
  lemma PackThenRead(items: seq<Item>, room: nat, compat: bool)
    requires Representable(items) && forall i :: 0 <= i < |items| ==> !ShamTimestamp(items[i])
    ensures var p := Packed([], room, RC_OK);
            var k := Succeeded(p, items, compat);
            Drain(PackAll(p, items, compat).out) == Drained(AllAsRead(items[..k], compat), RC_END_OF_INPUT)
  {
    var p := Packed([], room, RC_OK);
    var k := Succeeded(p, items, compat);
    PackAllResult(p, items, compat);
    var out := PackAll(p, items, compat).out;
    StreamReads(items[..k], compat, []);
    assert out == Concat(items[..k], compat) + [];
    assert Drain([]) == Drained([], RC_END_OF_INPUT);
    assert AllAsRead(items[..k], compat) + [] == AllAsRead(items[..k], compat);
  }

  // ---------------------------------------------------------------- lists that fit

  /** What can be packed, in at most `n` bytes. */
  ghost predicate Small(item: Item, n: nat) {
    item.Representable() && Wire(item, false).Sent? && |Wire(item, false).bytes| <= n && !ShamTimestamp(item)
  }

  lemma ConcatFirst(item: Item, rest: seq<Item>, n: nat)
    requires Small(item, n) && Faithful(rest, false)
    ensures Faithful([item] + rest, false)
    ensures |Concat([item] + rest, false)| <= n + |Concat(rest, false)|
  {
    hide Wire;
    assert ([item] + rest)[1..] == rest;
  }

  lemma FaithfulBoth(a: seq<Item>, b: seq<Item>)
    requires Faithful(a, false) && Faithful(b, false)
    ensures Faithful(a + b, false)
  {
    hide Wire;
  }

  lemma {:induction false} ConcatInTwo(a: seq<Item>, b: seq<Item>)
    requires Faithful(a, false) && Faithful(b, false)
    ensures Faithful(a + b, false) && Concat(a + b, false) == Concat(a, false) + Concat(b, false)
    decreases |a|
  {
    hide Wire, Faithful;
    FaithfulBoth(a, b);
    if a == [] {
      assert a + b == b;
    } else {
      hide Concat;
      assert (a + b)[0] == a[0] && (a + b)[1..] == a[1..] + b;
      FaithfulFirst(a, false);
      FaithfulFirst(a + b, false);
      ConcatInTwo(a[1..], b);
    }
  }

  /** When everything fits, every call succeeds. */
  lemma {:induction false} PackAllFits(p: Packed, items: seq<Item>)
    requires Faithful(items, false) && p.code == RC_OK && |p.out| + |Concat(items, false)| <= p.room
    ensures PackAll(p, items, false) == p.(out := p.out + Concat(items, false))
    decreases |items|
  {
    hide Wire;
    if items == [] {
      assert p.out + [] == p.out;
    } else {
      var q := Pack(p, Wire(items[0], false));
      PackAllFits(q, items[1..]);
      assert q.out + Concat(items[1..], false) == p.out + Concat(items, false);
    }
  }

  lemma PackAllOnce(p: Packed, item: Item, rest: seq<Item>)
    requires item.Representable() && Representable(rest)
    ensures Representable([item] + rest)
    ensures PackAll(p, [item] + rest, false) == PackAll(Pack(p, Wire(item, false)), rest, false)
  {
    hide Pack, Wire;
    assert ([item] + rest)[1..] == rest;
  }

  /** One more call at the end. */
  lemma {:induction false} PackAllThen(p: Packed, items: seq<Item>, item: Item)
    requires Representable(items) && item.Representable()
    ensures Representable(items + [item])
    ensures PackAll(p, items + [item], false) == Pack(PackAll(p, items, false), Wire(item, false))
    decreases |items|
  {
    hide Wire, Pack;
    if items == [] {
      assert items + [item] == [item] && [item][1..] == [];
    } else {
      assert (items + [item])[1..] == items[1..] + [item];
      PackAllThen(Pack(p, Wire(items[0], false)), items[1..], item);
    }
  }

  lemma {:induction false} ReadAsPacked(items: seq<Item>)
    ensures AllAsRead(items, false) == items
  {
    if items != [] {
      ReadAsPacked(items[1..]);
    }
  }

  lemma EmptyStream()
    ensures Drain([]) == Drained([], RC_END_OF_INPUT)
  {
  }

  /** A list that fits its buffer is packed whole and read back whole. */
  lemma PackedWhole(items: seq<Item>, room: nat)
    requires Faithful(items, false) && |Concat(items, false)| <= room
    ensures PackAll(Packed([], room, RC_OK), items, false) == Packed(Concat(items, false), room, RC_OK)
    ensures Drain(Concat(items, false)) == Drained(items, RC_END_OF_INPUT)
  {
    hide Wire, Drain;
    PackAllFits(Packed([], room, RC_OK), items);
    assert [] + Concat(items, false) == Concat(items, false);
    StreamReads(items, false, []);
    EmptyStream();
    ReadAsPacked(items);
    assert Concat(items, false) + [] == Concat(items, false);
    assert items + [] == items;
  }
}
