/** The MessagePack formats, written down once more from the side of the values: which byte strings encode
    an item (sections "int format family", "str format family", "bin format family", "array format
    family", "map format family", "ext format family", "float format family" and "Timestamp extension
    type" of the MessagePack specification). The reader accepts exactly these. */
module Formats {
  import opened Bytes
  import opened Items
  import opened Codec
  import Skipping
  import Streams

  /** The formats of a non-negative integer: a fixnum, four unsigned and four signed ones. */
  predicate PositiveForm(bs: seq<byte>, u: nat) {
    || (u < 0x80 && bs == [u])
    || (u < 0x100 && bs == Tagged(0xcc, u, 1))
    || (u < 0x1_0000 && bs == Tagged(0xcd, u, 2))
    || (u < 0x1_0000_0000 && bs == Tagged(0xce, u, 4))
    || (u < 0x1_0000_0000_0000_0000 && bs == Tagged(0xcf, u, 8))
    || (u < 0x80 && bs == Tagged(0xd0, u, 1))
    || (u < 0x8000 && bs == Tagged(0xd1, u, 2))
    || (u < 0x8000_0000 && bs == Tagged(0xd2, u, 4))
    || (u < 0x8000_0000_0000_0000 && bs == Tagged(0xd3, u, 8))
  }

  /** The formats of a negative integer, in two's complement. */
  predicate NegativeForm(bs: seq<byte>, i: int) {
    && i < 0
    && (|| (i >= -0x20 && bs == [i + 0x100])
        || (i >= -0x80 && bs == Tagged(0xd0, i + 0x100, 1))
        || (i >= -0x8000 && bs == Tagged(0xd1, i + 0x1_0000, 2))
        || (i >= -0x8000_0000 && bs == Tagged(0xd2, i + 0x1_0000_0000, 4))
        || (i >= -0x8000_0000_0000_0000 && bs == Tagged(0xd3, i + 0x1_0000_0000_0000_0000, 8)))
  }

  predicate StrForm(bs: seq<byte>, s: seq<byte>) {
    || (|s| < 0x20 && bs == [0xa0 + |s|] + s)
    || (|s| < 0x100 && bs == Tagged(0xd9, |s|, 1) + s)
    || (|s| < 0x1_0000 && bs == Tagged(0xda, |s|, 2) + s)
    || (|s| < 0x1_0000_0000 && bs == Tagged(0xdb, |s|, 4) + s)
  }

  predicate BinForm(bs: seq<byte>, s: seq<byte>) {
    || (|s| < 0x100 && bs == Tagged(0xc4, |s|, 1) + s)
    || (|s| < 0x1_0000 && bs == Tagged(0xc5, |s|, 2) + s)
    || (|s| < 0x1_0000_0000 && bs == Tagged(0xc6, |s|, 4) + s)
  }

  predicate ArrayForm(bs: seq<byte>, n: nat) {
    || (n < 0x10 && bs == [0x90 + n])
    || (n < 0x1_0000 && bs == Tagged(0xdc, n, 2))
    || (n < 0x1_0000_0000 && bs == Tagged(0xdd, n, 4))
  }

  predicate MapForm(bs: seq<byte>, n: nat) {
    || (n < 0x10 && bs == [0x80 + n])
    || (n < 0x1_0000 && bs == Tagged(0xde, n, 2))
    || (n < 0x1_0000_0000 && bs == Tagged(0xdf, n, 4))
  }

  /** The type byte of an extension. */
  function KindByte(t: int): byte
    requires -0x80 <= t < 0x80
  {
    if t < 0 then t + 0x100 else t
  }

  /** The formats of an extension. Type -1 is the timestamp's, except behind a 16- or 32-bit length, where the
      reader does not look for one. */
  predicate ExtForm(bs: seq<byte>, t: int, s: seq<byte>) {
    && -0x80 <= t < 0x80
    && (|| (|s| == 1 && t != -1 && bs == [0xd4, KindByte(t)] + s)
        || (|s| == 2 && t != -1 && bs == [0xd5, KindByte(t)] + s)
        || (|s| == 4 && t != -1 && bs == [0xd6, KindByte(t)] + s)
        || (|s| == 8 && t != -1 && bs == [0xd7, KindByte(t)] + s)
        || (|s| == 16 && t != -1 && bs == [0xd8, KindByte(t)] + s)
        || (|s| < 0x100 && t != -1 && bs == Tagged(0xc7, |s|, 1) + [KindByte(t)] + s)
        || (|s| < 0x1_0000 && bs == Tagged(0xc8, |s|, 2) + [KindByte(t)] + s)
        || (|s| < 0x1_0000_0000 && bs == Tagged(0xc9, |s|, 4) + [KindByte(t)] + s))
  }

  /** The three formats of a timestamp; the seconds of the last are in two's complement. */
  predicate TimeForm(bs: seq<byte>, sec: int, nsec: nat) {
    || (0 <= sec < 0x1_0000_0000 && nsec == 0 && bs == [0xd6, 0xff] + Store(sec, 4))
    || (0 <= sec < 0x4_0000_0000 && nsec < 0x4000_0000 && bs == [0xd7, 0xff] + Store(nsec * 0x4_0000_0000 + sec, 8))
    || (-TWO63 <= sec < TWO63 && nsec < 0x1_0000_0000
        && bs == [0xc7, 12, 0xff] + (Store(nsec, 4) + Store(if sec < 0 then sec + TWO64 else sec, 8)))
  }

  predicate Encodes(bs: seq<byte>, item: Item) {
    match item
    case Nil => bs == [0xc0]
    case Boolean(b) => bs == [if b then 0xc3 else 0xc2]
    case PosInt(u) => PositiveForm(bs, u)
    case NegInt(i) => NegativeForm(bs, i)
    case Float(x) => x < TWO32 && bs == Tagged(0xca, x, 4)
    case Double(x) => x < TWO64 && bs == Tagged(0xcb, x, 8)
    case Str(s) => StrForm(bs, s)
    case Bin(s) => BinForm(bs, s)
    case Array(n) => ArrayForm(bs, n)
    case Map(n) => MapForm(bs, n)
    case Ext(t, s) => ExtForm(bs, t, s)
    case Time(sec, nsec) => TimeForm(bs, sec, nsec)
  }

  // ---------------------------------------------------------------- every format is read

  /** A format that is a tag and a number. */
  lemma NumberRead(tag: byte, f: Field, v: nat, w: nat)
    requires ShapeOf(tag) == Number(f, w) && v < Pow256(w)
    ensures Decode(Tagged(tag, v, w)) == Ok(NumberItem(f, v, w), 1 + w)
  {
    hide Store, Load, NumberItem;
    var bs := Tagged(tag, v, w);
    TaggedReads(tag, v, w, []);
    assert bs + [] == bs;
  }

  lemma PositiveRead(bs: seq<byte>, u: nat)
    requires PositiveForm(bs, u)
    ensures Decode(bs) == Ok(PosInt(u), |bs|)
  {
    hide Store, Load, Decode;
    Powers();
    if bs == [u] && u < 0x80 {
      OneByte(u);
    } else if u < 0x100 && bs == Tagged(0xcc, u, 1) {
      NumberRead(0xcc, FPositive, u, 1);
    } else if u < 0x1_0000 && bs == Tagged(0xcd, u, 2) {
      NumberRead(0xcd, FPositive, u, 2);
    } else if u < 0x1_0000_0000 && bs == Tagged(0xce, u, 4) {
      NumberRead(0xce, FPositive, u, 4);
    } else if u < 0x1_0000_0000_0000_0000 && bs == Tagged(0xcf, u, 8) {
      NumberRead(0xcf, FPositive, u, 8);
    } else if u < 0x80 && bs == Tagged(0xd0, u, 1) {
      NumberRead(0xd0, FSigned, u, 1);
    } else if u < 0x8000 && bs == Tagged(0xd1, u, 2) {
      NumberRead(0xd1, FSigned, u, 2);
    } else if u < 0x8000_0000 && bs == Tagged(0xd2, u, 4) {
      NumberRead(0xd2, FSigned, u, 4);
    } else {
      NumberRead(0xd3, FSigned, u, 8);
    }
  }

  lemma OneByte(c: byte)
    ensures ShapeOf(c).Whole? ==> Decode([c]) == Ok(ShapeOf(c).item, 1)
  {
  }

  lemma NegativeRead(bs: seq<byte>, i: int)
    requires NegativeForm(bs, i)
    ensures Decode(bs) == Ok(NegInt(i), |bs|)
  {
    hide Store, Load, Decode;
    Powers();
    if i >= -0x20 && bs == [i + 0x100] {
      OneByte(i + 0x100);
    } else if i >= -0x80 && bs == Tagged(0xd0, i + 0x100, 1) {
      NumberRead(0xd0, FSigned, i + 0x100, 1);
    } else if i >= -0x8000 && bs == Tagged(0xd1, i + 0x1_0000, 2) {
      NumberRead(0xd1, FSigned, i + 0x1_0000, 2);
    } else if i >= -0x8000_0000 && bs == Tagged(0xd2, i + 0x1_0000_0000, 4) {
      NumberRead(0xd2, FSigned, i + 0x1_0000_0000, 4);
    } else {
      NumberRead(0xd3, FSigned, i + 0x1_0000_0000_0000_0000, 8);
    }
  }

  lemma BlobRead(tag: byte, text: bool, lead: nat, s: seq<byte>)
    requires ShapeOf(tag) == Blob(text, lead, 0) && |s| < Pow256(lead)
    ensures Decode(Tagged(tag, |s|, lead) + s) == Ok(BlobItem(text, s), |Tagged(tag, |s|, lead) + s|)
  {
    hide Store, Load, ShapeOf;
    var head := Tagged(tag, |s|, lead);
    LoadStore(|s|, lead);
    assert head[1..] == Store(|s|, lead);
    BlobReads(head, s, [], lead, 0, text);
    assert head + s + [] == head + s;
  }

  lemma ShortStrRead(s: seq<byte>)
    requires |s| < 0x20
    ensures Decode([0xa0 + |s|] + s) == Ok(Str(s), 1 + |s|)
  {
    NoBytes();
    var head: seq<byte> := [0xa0 + |s|];
    assert head[1..] == [];
    BlobReads(head, s, [], 0, |s|, true);
    assert head + s + [] == head + s;
  }

  lemma StrRead(bs: seq<byte>, s: seq<byte>)
    requires StrForm(bs, s)
    ensures Decode(bs) == Ok(Str(s), |bs|)
  {
    hide Store, Decode;
    Powers();
    if |s| < 0x20 && bs == [0xa0 + |s|] + s {
      ShortStrRead(s);
    } else if |s| < 0x100 && bs == Tagged(0xd9, |s|, 1) + s {
      BlobRead(0xd9, true, 1, s);
    } else if |s| < 0x1_0000 && bs == Tagged(0xda, |s|, 2) + s {
      BlobRead(0xda, true, 2, s);
    } else {
      BlobRead(0xdb, true, 4, s);
    }
  }

  lemma BinRead(bs: seq<byte>, s: seq<byte>)
    requires BinForm(bs, s)
    ensures Decode(bs) == Ok(Bin(s), |bs|)
  {
    hide Store, Decode;
    Powers();
    if |s| < 0x100 && bs == Tagged(0xc4, |s|, 1) + s {
      BlobRead(0xc4, false, 1, s);
    } else if |s| < 0x1_0000 && bs == Tagged(0xc5, |s|, 2) + s {
      BlobRead(0xc5, false, 2, s);
    } else {
      BlobRead(0xc6, false, 4, s);
    }
  }

  lemma ArrayRead(bs: seq<byte>, n: nat)
    requires ArrayForm(bs, n)
    ensures Decode(bs) == Ok(Array(n), |bs|)
  {
    hide Store, Load, Decode;
    Powers();
    if n < 0x10 && bs == [0x90 + n] {
      OneByte(0x90 + n);
    } else if n < 0x1_0000 && bs == Tagged(0xdc, n, 2) {
      NumberRead(0xdc, FArray, n, 2);
    } else {
      NumberRead(0xdd, FArray, n, 4);
    }
  }

  lemma MapRead(bs: seq<byte>, n: nat)
    requires MapForm(bs, n)
    ensures Decode(bs) == Ok(Map(n), |bs|)
  {
    hide Store, Load, Decode;
    Powers();
    if n < 0x10 && bs == [0x80 + n] {
      OneByte(0x80 + n);
    } else if n < 0x1_0000 && bs == Tagged(0xde, n, 2) {
      NumberRead(0xde, FMap, n, 2);
    } else {
      NumberRead(0xdf, FMap, n, 4);
    }
  }

  lemma KindReadsBack(t: int)
    requires -0x80 <= t < 0x80
    ensures Signed(KindByte(t), 1) == t
  {
    Powers();
  }

  lemma FixExtRead(tag: byte, t: int, s: seq<byte>)
    requires ShapeOf(tag) == FixExt(|s|) && -0x80 <= t < 0x80 && t != -1
    ensures Decode([tag, KindByte(t)] + s) == Ok(Ext(t, s), 2 + |s|)
  {
    hide Signed, Load, ShapeOf;
    KindReadsBack(t);
    var bs := [tag, KindByte(t)] + s;
    assert bs[0] == tag && bs[1] == KindByte(t) && bs[2..2 + |s|] == s;
  }

  lemma WideExtRead(tag: byte, lead: nat, t: int, s: seq<byte>)
    requires ShapeOf(tag) == WideExt(lead) && -0x80 <= t < 0x80 && (lead == 1 ==> t != -1) && |s| < Pow256(lead)
    ensures Decode(Tagged(tag, |s|, lead) + [KindByte(t)] + s) == Ok(Ext(t, s), 2 + lead + |s|)
  {
    hide Signed, Load, Store, ShapeOf;
    KindReadsBack(t);
    LoadStore(|s|, lead);
    var bs := Tagged(tag, |s|, lead) + [KindByte(t)] + s;
    assert bs[0] == tag && bs[1 + lead] == KindByte(t);
    assert bs[1..1 + lead] == Store(|s|, lead) && bs[2 + lead..2 + lead + |s|] == s;
  }

  lemma ExtRead(bs: seq<byte>, t: int, s: seq<byte>)
    requires ExtForm(bs, t, s)
    ensures Decode(bs) == Ok(Ext(t, s), |bs|)
  {
    hide Store, Decode;
    Powers();
    if t != -1 && |s| == 1 && bs == [0xd4, KindByte(t)] + s {
      FixExtRead(0xd4, t, s);
    } else if t != -1 && |s| == 2 && bs == [0xd5, KindByte(t)] + s {
      FixExtRead(0xd5, t, s);
    } else if t != -1 && |s| == 4 && bs == [0xd6, KindByte(t)] + s {
      FixExtRead(0xd6, t, s);
    } else if t != -1 && |s| == 8 && bs == [0xd7, KindByte(t)] + s {
      FixExtRead(0xd7, t, s);
    } else if t != -1 && |s| == 16 && bs == [0xd8, KindByte(t)] + s {
      FixExtRead(0xd8, t, s);
    } else if t != -1 && |s| < 0x100 && bs == Tagged(0xc7, |s|, 1) + [KindByte(t)] + s {
      WideExtRead(0xc7, 1, t, s);
    } else if |s| < 0x1_0000 && bs == Tagged(0xc8, |s|, 2) + [KindByte(t)] + s {
      WideExtRead(0xc8, 2, t, s);
    } else {
      WideExtRead(0xc9, 4, t, s);
    }
  }

  lemma TimeRead(bs: seq<byte>, sec: int, nsec: nat)
    requires TimeForm(bs, sec, nsec)
    ensures Decode(bs) == Ok(Time(sec, nsec), |bs|)
  {
    hide Store, Decode;
    assert bs + [] == bs;
    if 0 <= sec < 0x1_0000_0000 && nsec == 0 && bs == [0xd6, 0xff] + Store(sec, 4) {
      TimeFixReads(0xd6, sec, 4, []);
    } else if 0 <= sec < 0x4_0000_0000 && nsec < 0x4000_0000
              && bs == [0xd7, 0xff] + Store(nsec * 0x4_0000_0000 + sec, 8) {
      SplitStamp(sec, nsec);
      TimeFixReads(0xd7, nsec * 0x4_0000_0000 + sec, 8, []);
    } else {
      Time96Reads(sec, nsec, []);
      assert bs == [0xc7, 12, 0xff] + Store(nsec, 4) + Store(sec % 0x1_0000_0000_0000_0000, 8);
    }
  }

  lemma FormatRead(bs: seq<byte>, item: Item)
    requires Encodes(bs, item)
    ensures Decode(bs) == Ok(item, |bs|)
  {
    hide Decode, Store;
    match item
    case Nil => OneByte(0xc0);
    case Boolean(b) => OneByte(if b then 0xc3 else 0xc2);
    case PosInt(u) => PositiveRead(bs, u);
    case NegInt(i) => NegativeRead(bs, i);
    case Float(x) => Powers(); NumberRead(0xca, FFloat, x, 4);
    case Double(x) => Powers(); NumberRead(0xcb, FDouble, x, 8);
    case Str(s) => StrRead(bs, s);
    case Bin(s) => BinRead(bs, s);
    case Array(n) => ArrayRead(bs, n);
    case Map(n) => MapRead(bs, n);
    case Ext(t, s) => ExtRead(bs, t, s);
    case Time(sec, nsec) => TimeRead(bs, sec, nsec);
  }

  // ---------------------------------------------------------------- nothing else is

  /** The tags, by what follows them. */
  lemma Tags(c: byte)
    ensures match ShapeOf(c)
            case Illegal => c == 0xc1
            case Whole(item) => Encodes([c], item)
            case Number(f, w) =>
              (f, w, c) in {(FPositive, 1, 0xcc), (FPositive, 2, 0xcd), (FPositive, 4, 0xce), (FPositive, 8, 0xcf),
                            (FSigned, 1, 0xd0), (FSigned, 2, 0xd1), (FSigned, 4, 0xd2), (FSigned, 8, 0xd3),
                            (FFloat, 4, 0xca), (FDouble, 8, 0xcb), (FArray, 2, 0xdc), (FArray, 4, 0xdd),
                            (FMap, 2, 0xde), (FMap, 4, 0xdf)}
            case Blob(text, lead, inline) =>
              if lead == 0 then text && inline < 0x20 && c == 0xa0 + inline
              else inline == 0 && (text, lead, c) in {(true, 1, 0xd9), (true, 2, 0xda), (true, 4, 0xdb),
                                                      (false, 1, 0xc4), (false, 2, 0xc5), (false, 4, 0xc6)}
            case WideExt(lead) => (lead, c) in {(1, 0xc7), (2, 0xc8), (4, 0xc9)}
            case FixExt(len) => (len, c) in {(1, 0xd4), (2, 0xd5), (4, 0xd6), (8, 0xd7), (16, 0xd8)}
  {
    hide Store;
  }

  lemma NumberForm(bs: seq<byte>)
    requires Decode(bs).Ok? && Decode(bs).used == |bs| && ShapeOf(bs[0]).Number?
    ensures Encodes(bs, Decode(bs).item)
  {
    hide Store, Load, ShapeOf;
    Tags(bs[0]);
    Powers();
    var Number(f, w) := ShapeOf(bs[0]);
    StoreLoad(bs[1..]);
    assert bs[1..1 + w] == bs[1..];
    assert bs == [bs[0]] + bs[1..];
    var v := Load(bs[1..]);
    assert bs == Tagged(bs[0], v, w) && v < Pow256(w);
  }

  lemma BlobForm(bs: seq<byte>)
    requires Decode(bs).Ok? && Decode(bs).used == |bs| && ShapeOf(bs[0]).Blob?
    ensures Encodes(bs, Decode(bs).item)
  {
    hide Store, Load, ShapeOf;
    Tags(bs[0]);
    Powers();
    NoBytes();
    var Blob(text, lead, inline) := ShapeOf(bs[0]);
    var field := bs[1..1 + lead];
    StoreLoad(field);
    var s := bs[1 + lead..];
    assert s == bs[1 + lead..|bs|];
    assert bs == [bs[0]] + field + s;
    assert |s| == inline + Load(field);
    if lead == 0 {
      assert field == [];
      assert bs == [0xa0 + |s|] + s;
    } else {
      assert bs == Tagged(bs[0], |s|, lead) + s;
    }
  }

  lemma KindOf(b: byte)
    ensures -0x80 <= Signed(b, 1) < 0x80 && KindByte(Signed(b, 1)) == b
  {
    Powers();
  }

  lemma TimeItemForm(data: seq<byte>)
    requires |data| in {4, 8, 12}
    ensures TimeItem(data).Time?
    ensures var head: seq<byte> := if |data| == 4 then [0xd6, 0xff] else if |data| == 8 then [0xd7, 0xff] else [0xc7, 12, 0xff];
            TimeForm(head + data, TimeItem(data).sec, TimeItem(data).nsec)
  {
    hide Store, Load;
    Powers();
    StoreLoad(data);
    if |data| == 12 {
      StoreLoad(data[..4]);
      StoreLoad(data[4..]);
      assert data == data[..4] + data[4..];
    } else if |data| == 8 {
      var v := Load(data);
      assert v == v / 0x4_0000_0000 * 0x4_0000_0000 + v % 0x4_0000_0000;
    }
  }

  lemma FixExtForm(bs: seq<byte>)
    requires Decode(bs).Ok? && Decode(bs).used == |bs| && ShapeOf(bs[0]).FixExt?
    ensures Encodes(bs, Decode(bs).item)
  {
    hide Store, Load, ShapeOf, Signed, TimeItem, TimeForm;
    Tags(bs[0]);
    KindOf(bs[1]);
    var len := ShapeOf(bs[0]).len;
    var s := bs[2..];
    assert s == bs[2..2 + len];
    assert bs == [bs[0], bs[1]] + s;
    if Signed(bs[1], 1) == -1 {
      TimeItemForm(s);
    }
  }

  lemma WideExtForm(bs: seq<byte>)
    requires Decode(bs).Ok? && Decode(bs).used == |bs| && ShapeOf(bs[0]).WideExt?
    ensures Encodes(bs, Decode(bs).item)
  {
    hide Store, Load, ShapeOf, Signed, TimeItem, TimeForm;
    Tags(bs[0]);
    Powers();
    var lead := ShapeOf(bs[0]).lead;
    KindOf(bs[1 + lead]);
    var field := bs[1..1 + lead];
    StoreLoad(field);
    if lead == 1 && Signed(bs[2], 1) == -1 {
      OneByteField(bs[1]);
      assert field == [bs[1]];
      assert bs == [0xc7, 12, 0xff] + bs[3..15];
      TimeItemForm(bs[3..15]);
    } else {
      var s := bs[2 + lead..];
      assert s == bs[2 + lead..|bs|];
      assert bs == [bs[0]] + field + [bs[1 + lead]] + s;
      assert bs == Tagged(bs[0], |s|, lead) + [KindByte(Signed(bs[1 + lead], 1))] + s;
    }
  }

  lemma OneByteField(b: byte)
    ensures Load([b]) == b
  {
    assert [b][..0] == [];
  }

  lemma ReadFormat(bs: seq<byte>)
    requires Decode(bs).Ok? && Decode(bs).used == |bs|
    ensures Encodes(bs, Decode(bs).item)
  {
    hide Store, Load, Encodes;
    Tags(bs[0]);
    match ShapeOf(bs[0])
    case Whole(item) => assert bs == [bs[0]];
    case Number(_, _) => NumberForm(bs);
    case Blob(_, _, _) => BlobForm(bs);
    case WideExt(_) => WideExtForm(bs);
    case FixExt(_) => FixExtForm(bs);
  }

  // ---------------------------------------------------------------- main results

  /** The bytes an item is read from are exactly one of its formats, and every format of it is read, whatever
      follows. */
  lemma ReadsExactly(bs: seq<byte>, rest: seq<byte>, item: Item)
    ensures Decode(bs + rest) == Ok(item, |bs|) <==> Encodes(bs, item)
  {
    hide Decode, Encodes;
    if Encodes(bs, item) {
      FormatRead(bs, item);
      DecodeExtends(bs, rest);
    } else if Decode(bs + rest) == Ok(item, |bs|) {
      ReadFromPrefix(bs, rest);
      ReadFormat(bs);
    }
  }

  lemma ReadFromPrefix(bs: seq<byte>, rest: seq<byte>)
    requires Decode(bs + rest).Ok? && Decode(bs + rest).used == |bs|
    ensures Decode(bs) == Decode(bs + rest)
  {
    hide Decode;
    DecodeBounds(bs + rest);
    Streams.PrefixDecodes(bs + rest, |bs|);
    assert (bs + rest)[..|bs|] == bs;
  }

  /** A timestamp of a length that no format has. */
  predicate WrongStamp(bs: seq<byte>) {
    || (|bs| >= 3 && bs[0] == 0xc7 && bs[2] == 0xff && bs[1] != 12)
    || (|bs| >= 3 && bs[0] == 0xd4 && bs[1] == 0xff)
    || (|bs| >= 4 && bs[0] == 0xd5 && bs[1] == 0xff)
    || (|bs| >= 18 && bs[0] == 0xd8 && bs[1] == 0xff)
  }

  /** Why bytes are refused: nothing to read; the one byte without meaning; a timestamp of a wrong length; and
      in every other case too few bytes. */
  lemma RefusedExactly(bs: seq<byte>)
    requires Decode(bs).Fail?
    ensures Decode(bs).code == (if bs == [] then RC_END_OF_INPUT else if bs[0] == 0xc1 then RC_MALFORMED_INPUT
                                else if WrongStamp(bs) then RC_WRONG_TIMESTAMP_LENGTH else RC_BUFFER_UNDERFLOW)
  {
    hide Load, Store;
    if bs != [] {
      Tags(bs[0]);
      Powers();
      match ShapeOf(bs[0])
      case WideExt(_) =>
        if |bs| >= 3 {
          OneByteField(bs[1]);
          assert bs[1..2] == [bs[1]];
        }
      case _ =>
    }
  }

  /** Which calls the packer refuses, whatever the buffer: in compatibility mode those for extensions and
      timestamps, and otherwise those for timestamps with a second or more of nanoseconds. */
  lemma WriteRefusedExactly(item: Item, compat: bool)
    requires item.Representable()
    ensures Wire(item, compat) ==
            (if compat && (item.Ext? || item.Time?) then Refused(RC_ILLEGAL_CALL)
             else if item.Time? && item.nsec >= 1_000_000_000 then Refused(RC_VALUE_ERROR)
             else Sent(Wire(item, compat).bytes))
  {
    hide Store;
  }

  /** Looking ahead at bytes the reader refuses for another reason than their number: the byte without meaning
      is no item, and a timestamp of a wrong length is still a timestamp. */
  lemma LookAheadRefused(bs: seq<byte>)
    requires bs != [] && (bs[0] == 0xc1 || WrongStamp(bs))
    ensures Skipping.LookAhead(bs) == Skipping.Next(if bs[0] == 0xc1 then NOT_AN_ITEM else TYPE_TIMESTAMP)
  {
  }
}
