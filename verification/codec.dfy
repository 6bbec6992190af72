/** What reading and writing one item guarantee together. */
module Codec {
  import opened Bytes
  import opened Items

  /** The parameters that occur in the switch. */
  lemma Shapes(c: byte)
    ensures match ShapeOf(c)
            case Number(f, w) =>
              && w in {1, 2, 4, 8}
              && (f == FFloat ==> w == 4)
              && (f == FDouble ==> w == 8)
              && (f == FArray || f == FMap ==> w in {2, 4})
            case Blob(text, lead, inline) =>
              lead in {0, 1, 2, 4} && inline < 32 && (if lead == 0 then text else inline == 0)
            case WideExt(lead) => lead in {1, 2, 4}
            case FixExt(len) => len in {1, 2, 4, 8, 16}
            case Whole(item) => item.Representable()
            case Illegal => true
  {
  }

  lemma NumberFits(f: Field, v: nat, w: nat)
    requires w in {1, 2, 4, 8} && v < Pow256(w)
    requires f == FFloat ==> w == 4
    requires f == FArray || f == FMap ==> w <= 4
    ensures NumberItem(f, v, w).Representable()
  {
    Powers();
  }

  lemma NumberBounds(bs: seq<byte>, f: Field, w: nat)
    requires |bs| >= 1 && ShapeOf(bs[0]) == Number(f, w)
    ensures DecodeNumber(bs, f, w).used <= |bs|
    ensures DecodeNumber(bs, f, w).Ok? ==> DecodeNumber(bs, f, w).item.Representable()
  {
    hide Load, NumberItem, Pow256;
    Shapes(bs[0]);
    if |bs| >= 1 + w {
      StoreLoad(bs[1..1 + w]);
      NumberFits(f, Load(bs[1..1 + w]), w);
    }
  }

  lemma LengthBound(field: seq<byte>)
    requires |field| <= 4
    ensures Load(field) < (if field == [] then 1 else TWO32)
  {
    Powers();
    StoreLoad(field);
    assert Pow256(3) == 0x100_0000;
  }

  lemma ExtBounds(bs: seq<byte>)
    requires |bs| >= 1 && (ShapeOf(bs[0]).WideExt? || ShapeOf(bs[0]).FixExt?)
    ensures Decode(bs).used <= |bs|
    ensures Decode(bs).Ok? ==> Decode(bs).used >= 1 && Decode(bs).item.Representable()
  {
    hide Load, TimeItem;
    Shapes(bs[0]);
    Powers();
    match ShapeOf(bs[0])
    case WideExt(lead) =>
      if |bs| >= 1 + lead {
        LengthBound(bs[1..1 + lead]);
        if |bs| >= 15 {
          TimeFits(bs[3..15]);
        }
      }
    case FixExt(len) =>
      if |bs| >= 2 + len && (len == 4 || len == 8) {
        TimeFits(bs[2..2 + len]);
      }
  }

  /** Decoding stays inside the buffer and yields a value its C field can hold. */
  lemma DecodeBounds(bs: seq<byte>)
    ensures Decode(bs).used <= |bs|
    ensures Decode(bs).Ok? ==> Decode(bs).used >= 1 && Decode(bs).item.Representable()
  {
    if bs != [] {
      Shapes(bs[0]);
      match ShapeOf(bs[0])
      case Number(f, w) => NumberBounds(bs, f, w);
      case Blob(text, lead, inline) =>
        if |bs| >= 1 + lead {
          LengthBound(bs[1..1 + lead]);
        }
      case WideExt(_) => ExtBounds(bs);
      case FixExt(_) => ExtBounds(bs);
      case _ =>
    }
  }

  lemma TimeFits(data: seq<byte>)
    requires |data| in {4, 8, 12}
    ensures TimeItem(data).Representable()
  {
    Powers();
    StoreLoad(data);
    if |data| == 12 {
      StoreLoad(data[4..]);
      StoreLoad(data[..4]);
    }
  }

  lemma WideExtExtends(bs: seq<byte>, rest: seq<byte>)
    requires Decode(bs).Ok? && ShapeOf(bs[0]).WideExt?
    ensures Decode(bs + rest) == Decode(bs)
  {
    hide Load, Signed, TimeItem, ShapeOf;
    DecodeBounds(bs);
    var all := bs + rest;
    var n, lead := Decode(bs).used, ShapeOf(bs[0]).lead;
    assert all[0] == bs[0];
    assert all[1 + lead] == bs[1 + lead];
    assert all[1..1 + lead] == bs[1..1 + lead];
    assert all[2 + lead..n] == bs[2 + lead..n];
  }

  lemma FixExtExtends(bs: seq<byte>, rest: seq<byte>)
    requires Decode(bs).Ok? && ShapeOf(bs[0]).FixExt?
    ensures Decode(bs + rest) == Decode(bs)
  {
    hide Load, Signed, TimeItem, ShapeOf;
    DecodeBounds(bs);
    var all := bs + rest;
    var len := ShapeOf(bs[0]).len;
    assert all[0] == bs[0] && all[1] == bs[1];
    assert all[2..2 + len] == bs[2..2 + len];
  }

  lemma BlobExtends(bs: seq<byte>, rest: seq<byte>)
    requires Decode(bs).Ok? && ShapeOf(bs[0]).Blob?
    ensures Decode(bs + rest) == Decode(bs)
  {
    hide Load, BlobItem, ShapeOf;
    DecodeBounds(bs);
    var all := bs + rest;
    assert all[0] == bs[0];
    var Blob(text, lead, inline) := ShapeOf(bs[0]);
    var n := Decode(bs).used;
    assert all[1..1 + lead] == bs[1..1 + lead];
    assert all[1 + lead..n] == bs[1 + lead..n];
  }

  /** A decoded item depends only on the bytes it used. */
  lemma DecodeExtends(bs: seq<byte>, rest: seq<byte>)
    requires Decode(bs).Ok?
    ensures Decode(bs + rest) == Decode(bs)
  {
    hide Load, NumberItem, BlobItem;
    DecodeBounds(bs);
    var all := bs + rest;
    assert all[0] == bs[0];
    match ShapeOf(bs[0])
    case Number(f, w) =>
      assert all[1..1 + w] == bs[1..1 + w];
    case Blob(_, _, _) => BlobExtends(bs, rest);
    case WideExt(_) => WideExtExtends(bs, rest);
    case FixExt(_) => FixExtExtends(bs, rest);
    case _ =>
  }

  /** Cut anywhere strictly inside, an item reads as an underflow: encodings are prefix-free. */
  lemma DecodeCut(bs: seq<byte>, k: nat)
    requires Decode(bs).Ok? && 0 < k < Decode(bs).used
    ensures k <= |bs|
    ensures Decode(bs[..k]).Fail? && Decode(bs[..k]).code == RC_BUFFER_UNDERFLOW
  {
    hide Load, Signed, NumberItem, BlobItem, TimeItem;
    DecodeBounds(bs);
    var cut := bs[..k];
    assert cut[0] == bs[0];
    match ShapeOf(bs[0])
    case Blob(text, lead, inline) =>
      if k >= 1 + lead {
        assert cut[1..1 + lead] == bs[1..1 + lead];
      }
    case WideExt(lead) =>
      if k >= 1 + lead {
        assert cut[1..1 + lead] == bs[1..1 + lead];
      }
    case _ =>
  }

  // ---------------------------------------------------------------- round trip

  lemma TaggedReads(tag: byte, v: nat, n: nat, rest: seq<byte>)
    requires v < Pow256(n)
    ensures (Tagged(tag, v, n) + rest)[0] == tag
    ensures (Tagged(tag, v, n) + rest)[1..1 + n] == Store(v, n) && Load(Store(v, n)) == v
  {
    LoadStore(v, n);
    assert (Tagged(tag, v, n) + rest)[1..1 + n] == Store(v, n);
  }

  lemma UnsignedReads(u: nat, rest: seq<byte>)
    requires u < TWO64
    ensures Decode(WireUnsigned(u) + rest) == Ok(PosInt(u), |WireUnsigned(u)|)
  {
    hide Store, Load;
    Powers();
    if u >= 128 {
      var n := if u < 256 then 1 else if u < 0x1_0000 then 2 else if u < TWO32 then 4 else 8;
      TaggedReads(WireUnsigned(u)[0], u, n, rest);
    }
  }

  lemma NegativeResidue(i: int, p: int)
    requires p in {0x100, 0x1_0000, TWO32, TWO64} && i < 0 && -p <= 2 * i
    ensures i % 0x1_0000_0000_0000_0000 == i + TWO64 && (i + TWO64) % p == i + p
  {
    if p == 0x100 {
      assert (i + TWO64) % 0x100 == i + 0x100;
    } else if p == 0x1_0000 {
      assert (i + TWO64) % 0x1_0000 == i + 0x1_0000;
    } else if p == TWO32 {
      assert (i + TWO64) % 0x1_0000_0000 == i + TWO32;
    }
  }

  /** The low `n` bytes of a two's complement number read back as that number. */
  lemma SignedField(i: int, n: nat)
    requires n in {1, 2, 4, 8} && i < 0 && 0 <= 2 * i + Pow256(n)
    ensures Store(i % 0x1_0000_0000_0000_0000, n) == Store(i + Pow256(n), n)
    ensures 0 <= i + Pow256(n) < Pow256(n) && Signed(i + Pow256(n), n) == i
  {
    Powers();
    NegativeResidue(i, Pow256(n));
    StoreModulo(i % 0x1_0000_0000_0000_0000, n);
  }

  /** A field keeps its value modulo the field's range. */
  lemma {:induction false} StoreModulo(v: nat, n: nat)
    ensures Store(v % Pow256(n), n) == Store(v, n)
  {
    if n > 0 {
      hide Pow256;
      assert Pow256(n) == 256 * Pow256(n - 1) by {
        NextPower(n - 1);
      }
      DropLastByte(v, Pow256(n - 1));
      StoreModulo(v / 256, n - 1);
    }
  }

  lemma NextPower(n: nat)
    ensures Pow256(n + 1) == 256 * Pow256(n)
  {
  }

  /** Cutting a number to some bytes cuts the number without its last byte to one byte less. */
  lemma DropLastByte(v: nat, p: nat)
    requires p >= 1
    ensures v % (256 * p) / 256 == v / 256 % p && v % (256 * p) % 256 == v % 256
  {
    var d, b := v / 256, v % 256;
    var q, r := d / p, d % p;
    assert d == p * q + r;
    Regroup(p, q, r, b);
    assert v == 256 * p * q + (256 * r + b);
    ModuloOf(v, 256 * p, q, 256 * r + b);
  }

  lemma Regroup(p: nat, q: nat, r: nat, b: nat)
    ensures 256 * (p * q + r) + b == 256 * p * q + (256 * r + b)
  {
  }

  lemma ModuloOf(v: nat, p: nat, q: nat, r: nat)
    requires r < p && v == p * q + r
    ensures v % p == r
  {
    QuotientUnique(p, q, r, v / p, v % p);
  }

  lemma NegativeField(tag: byte, i: int, n: nat, rest: seq<byte>)
    requires ShapeOf(tag) == Number(FSigned, n) && n in {1, 2, 4, 8}
    requires i < 0 <= 2 * i + Pow256(n)
    ensures Decode(Tagged(tag, i % 0x1_0000_0000_0000_0000, n) + rest) == Ok(NegInt(i), 1 + n)
  {
    hide Store, Load;
    SignedField(i, n);
    TaggedReads(tag, i + Pow256(n), n, rest);
  }

  lemma NegativeReads(i: int, rest: seq<byte>)
    requires -TWO63 <= i < 0
    ensures Decode(WireSigned(i) + rest) == Ok(NegInt(i), |WireSigned(i)|)
  {
    Powers();
    if i >= -32 {
    } else if i >= -128 {
      NegativeField(0xd0, i, 1, rest);
    } else if i >= -32768 {
      NegativeField(0xd1, i, 2, rest);
    } else if i >= -0x8000_0000 {
      NegativeField(0xd2, i, 4, rest);
    } else {
      NegativeField(0xd3, i, 8, rest);
    }
  }

  /** cw_pack_signed and cw_pack_unsigned agree wherever both apply. */
  lemma SignedIsUnsigned(i: int)
    requires 0 <= i < TWO63
    ensures WireSigned(i) == WireUnsigned(i)
  {
  }

  /** A blob behind a head whose length field is already known to read as `|data|`. */
  lemma BlobReads(head: seq<byte>, data: seq<byte>, rest: seq<byte>, lead: nat, inline: nat, text: bool)
    requires |head| == 1 + lead && ShapeOf(head[0]) == Blob(text, lead, inline)
    requires inline + Load(head[1..]) == |data|
    ensures Decode(head + data + rest) == Ok(BlobItem(text, data), |head + data|)
  {
    var bs := head + data + rest;
    assert bs[1..1 + lead] == head[1..];
    assert bs[1 + lead..1 + lead + |data|] == data;
  }

  lemma StrReads(data: seq<byte>, compat: bool, rest: seq<byte>)
    requires |data| < TWO32
    ensures Decode(StrHead(|data|, compat) + data + rest) == Ok(Str(data), |StrHead(|data|, compat) + data|)
  {
    Powers();
    var head := StrHead(|data|, compat);
    var lead := |head| - 1;
    if lead == 0 {
      assert head[1..] == [];
    } else {
      LoadStore(|data|, lead);
      assert head[1..] == Store(|data|, lead);
    }
    BlobReads(head, data, rest, lead, if lead == 0 then |data| else 0, true);
  }

  lemma BinReads(data: seq<byte>, rest: seq<byte>)
    requires |data| < TWO32
    ensures Decode(BinHead(|data|) + data + rest) == Ok(Bin(data), |BinHead(|data|) + data|)
  {
    Powers();
    var head := BinHead(|data|);
    LoadStore(|data|, |head| - 1);
    assert head[1..] == Store(|data|, |head| - 1);
    BlobReads(head, data, rest, |head| - 1, 0, false);
  }

  lemma KindReads(t: int)
    requires -128 <= t < 128
    ensures Signed(t % 256, 1) == t
  {
    Powers();
  }

  predicate FixLength(l: nat) { l in {1, 2, 4, 8, 16} }

  lemma ExtReads(t: int, data: seq<byte>, rest: seq<byte>)
    requires -128 <= t < 128 && |data| < TWO32
    requires t != TYPE_TIMESTAMP || |data| >= 256
    ensures Decode(ExtHead(|data|) + [t % 256] + data + rest)
         == Ok(Ext(t, data), |ExtHead(|data|) + [t % 256] + data|)
  {
    hide Store, Load;
    Powers();
    KindReads(t);
    var head := ExtHead(|data|);
    var bs := head + [t % 256] + data + rest;
    var h := |head|;
    assert bs[0] == head[0] && bs[h] == t % 256;
    assert bs[h + 1..h + 1 + |data|] == data;
    if FixLength(|data|) {
      assert ShapeOf(bs[0]) == FixExt(|data|);
    } else {
      LoadStore(|data|, h - 1);
      assert bs[1..h] == Store(|data|, h - 1);
      assert ShapeOf(bs[0]) == WideExt(h - 1);
    }
  }

  lemma SignedResidue(sec: int)
    requires -TWO63 <= sec < TWO63
    ensures Signed(sec % 0x1_0000_0000_0000_0000, 8) == sec
  {
    Powers();
  }

  lemma Time96Item(sec: int, nsec: nat)
    requires -TWO63 <= sec < TWO63 && nsec < TWO32
    ensures TimeItem(Store(nsec, 4) + Store(sec % 0x1_0000_0000_0000_0000, 8)) == Time(sec, nsec)
  {
    hide Store, Load, Signed;
    Powers();
    var s := sec % 0x1_0000_0000_0000_0000;
    var data := Store(nsec, 4) + Store(s, 8);
    assert data[..4] == Store(nsec, 4) && data[4..] == Store(s, 8);
    LoadStore(nsec, 4);
    LoadStore(s, 8);
    SignedResidue(sec);
  }

  lemma Time96Reads(sec: int, nsec: nat, rest: seq<byte>)
    requires -TWO63 <= sec < TWO63 && nsec < TWO32
    ensures Decode([0xc7, 12, 0xff] + Store(nsec, 4) + Store(sec % 0x1_0000_0000_0000_0000, 8) + rest)
         == Ok(Time(sec, nsec), 15)
  {
    hide Store, TimeItem;
    KindReads(-1);
    Time96Item(sec, nsec);
    var data := Store(nsec, 4) + Store(sec % 0x1_0000_0000_0000_0000, 8);
    var bs := [0xc7, 12, 0xff] + Store(nsec, 4) + Store(sec % 0x1_0000_0000_0000_0000, 8) + rest;
    assert bs[0] == 0xc7 && bs[2] == 0xff;
    assert bs[1..2] == [12] && Load([12]) == 12;
    assert bs[3..15] == data;
  }

  lemma TimeFixReads(tag: byte, v: nat, n: nat, rest: seq<byte>)
    requires (tag == 0xd6 && n == 4 && v < TWO32) || (tag == 0xd7 && n == 8 && v < TWO64)
    ensures Decode([tag, 0xff] + Store(v, n) + rest)
         == Ok(if n == 4 then Time(v, 0) else Time(v % 0x4_0000_0000, v / 0x4_0000_0000), 2 + n)
  {
    hide Store, Load;
    Powers();
    KindReads(-1);
    var bs := [tag, 0xff] + Store(v, n) + rest;
    assert bs[0] == tag && bs[1] == 0xff;
    assert bs[2..2 + n] == Store(v, n);
    LoadStore(v, n);
  }

  lemma SplitStamp(sec: nat, nsec: nat)
    requires sec < 0x4_0000_0000
    ensures (nsec * 0x4_0000_0000 + sec) % 0x4_0000_0000 == sec
    ensures (nsec * 0x4_0000_0000 + sec) / 0x4_0000_0000 == nsec
  {
  }

  /** Each of the three timestamp forms carries the same timestamp, at and across the 34-bit boundary. */
  lemma TimeReads(sec: int, nsec: nat, rest: seq<byte>)
    requires -TWO63 <= sec < TWO63 && nsec < 1_000_000_000
    ensures Decode(WireTime(sec, nsec) + rest) == Ok(Time(sec, nsec), |WireTime(sec, nsec)|)
  {
    hide Decode, Store;
    if sec < 0 || sec >= 0x4_0000_0000 {
      Time96Reads(sec, nsec, rest);
      assert |WireTime(sec, nsec)| == 15;
    } else {
      var data64 := nsec * 0x4_0000_0000 + sec;
      SplitStamp(sec, nsec);
      assert data64 < 1_000_000_000 * 0x4_0000_0000;
      if data64 >= TWO32 {
        TimeFixReads(0xd7, data64, 8, rest);
        assert |WireTime(sec, nsec)| == 10;
      } else {
        TimeFixReads(0xd6, data64, 4, rest);
        assert nsec == 0 && |WireTime(sec, nsec)| == 6;
      }
    }
  }

  lemma SizeReads(n: nat, rest: seq<byte>)
    requires n < TWO32
    ensures Decode(WireArray(n) + rest) == Ok(Array(n), |WireArray(n)|)
    ensures Decode(WireMap(n) + rest) == Ok(Map(n), |WireMap(n)|)
  {
    hide Store, Load;
    Powers();
    if n >= 16 {
      var w := if n < 0x1_0000 then 2 else 4;
      TaggedReads(WireArray(n)[0], n, w, rest);
      TaggedReads(WireMap(n)[0], n, w, rest);
    }
  }

  lemma RealReads(x: nat, rest: seq<byte>)
    ensures x < TWO32 ==> Decode(Tagged(0xca, x, 4) + rest) == Ok(Float(x), 5)
    ensures x < TWO64 ==> Decode(Tagged(0xcb, x, 8) + rest) == Ok(Double(x), 9)
  {
    Powers();
    if x < TWO64 {
      TaggedReads(0xcb, x, 8, rest);
      if x < TWO32 {
        TaggedReads(0xca, x, 4, rest);
      }
    }
  }

  /** What the reader makes of an item: the compatibility mode writes binaries as strings. */
  function AsRead(item: Item, compat: bool): Item {
    if compat && item.Bin? then Str(item.raw) else item
  }

  /** An extension the reader would take for a timestamp. */
  predicate ShamTimestamp(item: Item) {
    item.Ext? && item.kind == TYPE_TIMESTAMP && |item.body| < 256
  }

  /** Everything the packer accepts is read back, whatever follows it in the buffer. */
  lemma RoundTrip(item: Item, compat: bool, rest: seq<byte>)
    requires item.Representable() && Wire(item, compat).Sent? && !ShamTimestamp(item)
    ensures Decode(Wire(item, compat).bytes + rest) == Ok(AsRead(item, compat), |Wire(item, compat).bytes|)
  {
    match item
    case PosInt(u) => UnsignedReads(u, rest);
    case NegInt(i) => NegativeReads(i, rest);
    case Float(x) => RealReads(x, rest);
    case Double(x) => RealReads(x, rest);
    case Str(s) => StrReads(s, compat, rest);
    case Bin(s) =>
      if compat {
        StrReads(s, compat, rest);
      } else {
        BinReads(s, rest);
      }
    case Array(n) => SizeReads(n, rest);
    case Map(n) => SizeReads(n, rest);
    case Ext(t, s) => ExtReads(t, s, rest);
    case Time(s, n) => TimeReads(s, n, rest);
    case _ =>
  }

  /** Followed by anything, a sham timestamp is read as a timestamp or refused. */
  lemma ShamReads(data: seq<byte>, rest: seq<byte>)
    requires |data| < 256
    ensures var r := Decode(ExtHead(|data|) + [0xff] + data + rest);
            r.Ok? ==> r.item.Time?
  {
    Powers();
    KindReads(-1);
    var head := ExtHead(|data|);
    var bs := head + [0xff] + data + rest;
    assert bs[0] == head[0] && bs[|head|] == 0xff;
    if FixLength(|data|) {
      assert ShapeOf(bs[0]) == FixExt(|data|);
    } else {
      assert ShapeOf(bs[0]) == WideExt(1);
    }
  }

  lemma RefusalIsAnError(item: Item, compat: bool)
    requires item.Representable() && Wire(item, compat).Refused?
    ensures Wire(item, compat).code != RC_OK
  {
  }

  /** The reader returns what was packed, for every continuation, exactly when it is not a sham timestamp. */
  lemma RoundTripExactly(item: Item, rest: seq<byte>)
    requires item.Representable() && Wire(item, false).Sent?
    ensures Decode(Wire(item, false).bytes + rest) == Ok(item, |Wire(item, false).bytes|) <==> !ShamTimestamp(item)
  {
    if ShamTimestamp(item) {
      assert Wire(item, false).bytes == ExtHead(|item.body|) + [0xff] + item.body;
      ShamReads(item.body, rest);
    } else {
      RoundTrip(item, false, rest);
    }
  }

  // ---------------------------------------------------------------- minimality

  lemma IntegerLength(v: nat, w: nat)
    requires w in {1, 2, 4, 8} && v < Pow256(w)
    ensures v < TWO64 && |WireUnsigned(v)| <= 1 + w
    ensures Signed(v, w) < 0 ==> -TWO63 <= Signed(v, w) && |WireSigned(Signed(v, w))| <= 1 + w
  {
    Powers();
  }

  lemma HeadLength(l: nat, lead: nat)
    requires l < Pow256(lead) && lead in {1, 2, 4}
    ensures |StrHead(l, false)| <= 1 + lead && |BinHead(l)| <= 1 + lead && |ExtHead(l)| <= 1 + lead
  {
    Powers();
  }

  lemma TimeLength(data: seq<byte>)
    requires |data| in {4, 8, 12}
    ensures |WireTime(TimeItem(data).sec, TimeItem(data).nsec)| <= (if |data| == 12 then 15 else 2 + |data|)
  {
    Powers();
    StoreLoad(data);
  }

  lemma SizeLength(n: nat, w: nat)
    requires w in {2, 4} && n < Pow256(w)
    ensures |WireArray(n)| <= 1 + w && |WireMap(n)| <= 1 + w
  {
    Powers();
  }

  ghost predicate Within(item: Item, n: nat)
  {
    item.Representable() && (Wire(item, false).Sent? ==> |Wire(item, false).bytes| <= n)
  }

  lemma NumberMinimal(f: Field, v: nat, w: nat)
    requires w in {1, 2, 4, 8} && v < Pow256(w)
    requires (f == FFloat ==> w == 4) && (f == FDouble ==> w == 8) && (f == FArray || f == FMap ==> w in {2, 4})
    ensures Within(NumberItem(f, v, w), 1 + w)
  {
    NumberFits(f, v, w);
    IntegerLength(v, w);
    match f
    case FArray => SizeLength(v, w);
    case FMap => SizeLength(v, w);
    case _ =>
  }

  lemma BlobMinimal(text: bool, data: seq<byte>, lead: nat)
    requires lead in {0, 1, 2, 4} && |data| < (if lead == 0 then 32 else Pow256(lead)) && (lead == 0 ==> text)
    ensures Within(BlobItem(text, data), 1 + lead + |data|)
  {
    Powers();
    if lead > 0 {
      HeadLength(|data|, lead);
    }
  }

  lemma ExtMinimal(kind: int, data: seq<byte>, n: nat)
    requires -128 <= kind < 128 && |data| < TWO32 && |ExtHead(|data|)| <= n
    ensures Within(Ext(kind, data), n + 1 + |data|)
  {
  }

  lemma TimeMinimal(data: seq<byte>)
    requires |data| in {4, 8, 12}
    ensures Within(TimeItem(data), if |data| == 12 then 15 else 2 + |data|)
  {
    TimeFits(data);
    TimeLength(data);
  }

  lemma WideExtUsed(bs: seq<byte>, lead: nat)
    requires Decode(bs).Ok? && ShapeOf(bs[0]) == WideExt(lead)
    ensures Within(Decode(bs).item, Decode(bs).used)
  {
    hide Wire, StrHead, BinHead, Store, Load;
    Shapes(bs[0]);
    DecodeBounds(bs);
    var d := Decode(bs);
    if d.item.Time? {
      TimeMinimal(bs[3..15]);
    } else {
      var len := Load(bs[1..1 + lead]);
      StoreLoad(bs[1..1 + lead]);
      HeadLength(len, lead);
      assert |d.item.body| == len;
      ExtMinimal(d.item.kind, d.item.body, 1 + lead);
    }
  }

  lemma FixExtUsed(bs: seq<byte>, len: nat)
    requires Decode(bs).Ok? && ShapeOf(bs[0]) == FixExt(len)
    ensures Within(Decode(bs).item, Decode(bs).used)
  {
    hide Wire, StrHead, BinHead, Store, Load;
    Shapes(bs[0]);
    DecodeBounds(bs);
    var d := Decode(bs);
    if d.item.Time? {
      TimeMinimal(bs[2..2 + len]);
    } else {
      assert |d.item.body| == len && |ExtHead(len)| == 1;
      ExtMinimal(d.item.kind, d.item.body, 1);
    }
  }

  lemma NoBytes()
    ensures Load([]) == 0
  {
  }

  lemma BlobUsed(bs: seq<byte>)
    requires Decode(bs).Ok? && ShapeOf(bs[0]).Blob?
    ensures Within(Decode(bs).item, Decode(bs).used)
  {
    hide Wire, StrHead, BinHead, ExtHead, Load, Pow256;
    DecodeBounds(bs);
    Shapes(bs[0]);
    var Blob(text, lead, inline) := ShapeOf(bs[0]);
    StoreLoad(bs[1..1 + lead]);
    NoBytes();
    var n := inline + Load(bs[1..1 + lead]);
    BlobMinimal(text, bs[1 + lead..1 + lead + n], lead);
  }

  lemma UsedAtLeastWire(bs: seq<byte>)
    requires Decode(bs).Ok?
    ensures Within(Decode(bs).item, Decode(bs).used)
  {
    hide StrHead, BinHead, ExtHead, Store;
    Shapes(bs[0]);
    match ShapeOf(bs[0])
    case Number(f, w) =>
      StoreLoad(bs[1..1 + w]);
      NumberMinimal(f, Load(bs[1..1 + w]), w);
    case Blob(text, lead, inline) => BlobUsed(bs);
    case WideExt(lead) => WideExtUsed(bs, lead);
    case FixExt(len) => FixExtUsed(bs, len);
    case _ =>
  }

  /** The packer never writes more bytes than any encoding the reader accepts for the same item. */
  lemma Minimal(bs: seq<byte>)
    requires Decode(bs).Ok?
    ensures Decode(bs).item.Representable()
    ensures Wire(Decode(bs).item, false).Sent? ==> |Wire(Decode(bs).item, false).bytes| <= Decode(bs).used
  {
    hide Wire, Store;
    assert Within(Decode(bs).item, Decode(bs).used) by {
      UsedAtLeastWire(bs);
    }
  }

  /** What compatibility mode writes longer than it must: strings that str 8 would have suited, and
      binaries of those lengths, which it writes as strings. */
  predicate MissesStr8(item: Item) {
    (item.Str? && 32 <= |item.chars| < 256) || (item.Bin? && 32 <= |item.raw| < 256)
  }

  lemma CompatLonger(item: Item)
    requires item.Representable() && Wire(item, true).Sent?
    ensures AsRead(item, true).Representable() && Wire(AsRead(item, true), false).Sent?
    ensures |Wire(item, true).bytes| == |Wire(AsRead(item, true), false).bytes| + (if MissesStr8(item) then 1 else 0)
  {
    hide Store;
  }

  /** In compatibility mode, too, no encoding the reader accepts for what it makes of an item is shorter than
      the packer's, exactly except for those. */
  lemma CompatMinimal(item: Item)
    requires item.Representable() && Wire(item, true).Sent?
    ensures (forall bs :: Decode(bs).Ok? && Decode(bs).item == AsRead(item, true) ==>
               |Wire(item, true).bytes| <= Decode(bs).used)
       <==> !MissesStr8(item)
  {
    hide Wire, Decode, StrHead;
    var read := AsRead(item, true);
    CompatLonger(item);
    if MissesStr8(item) {
      var bs := Wire(read, false).bytes;
      RoundTrip(read, false, []);
      assert bs + [] == bs;
      assert Decode(bs).Ok? && Decode(bs).item == read && Decode(bs).used < |Wire(item, true).bytes|;
    } else {
      forall bs | Decode(bs).Ok? && Decode(bs).item == read
        ensures |Wire(item, true).bytes| <= Decode(bs).used
      {
        Minimal(bs);
      }
    }
  }
}
