/** The MessagePack item language as cwpack reads it (`Decode`) and writes it (`Wire`). */
module Items {
  import opened Bytes

  // Return codes (cwpack.h).
  const RC_OK: int := 0
  const RC_END_OF_INPUT: int := -1
  const RC_BUFFER_OVERFLOW: int := -2
  const RC_BUFFER_UNDERFLOW: int := -3
  const RC_MALFORMED_INPUT: int := -4
  const RC_ILLEGAL_CALL: int := -7
  const RC_VALUE_ERROR: int := -11
  const RC_WRONG_TIMESTAMP_LENGTH: int := -12

  // Item types (cwpack.h); an extension has its own type byte, -128..127, and a timestamp is type -1.
  const TYPE_TIMESTAMP: int := -1
  const TYPE_NIL: int := 300
  const TYPE_BOOLEAN: int := 301
  const TYPE_POSITIVE: int := 302
  const TYPE_NEGATIVE: int := 303
  const TYPE_FLOAT: int := 304
  const TYPE_DOUBLE: int := 305
  const TYPE_STR: int := 306
  const TYPE_BIN: int := 307
  const TYPE_ARRAY: int := 308
  const TYPE_MAP: int := 309
  const NOT_AN_ITEM: int := 999

  /** One item; floats are their bit patterns, blobs their bytes, containers only their header. */
  datatype Item =
    | Nil
    | Boolean(b: bool)
    | PosInt(u: nat)
    | NegInt(i: int)
    | Float(bits32: nat)
    | Double(bits64: nat)
    | Str(chars: seq<byte>)
    | Bin(raw: seq<byte>)
    | Array(size: nat)
    | Map(pairs: nat)
    | Ext(kind: int, body: seq<byte>)
    | Time(sec: int, nsec: nat)
  {
    /** The value fits the C field that carries it. */
    predicate Representable() {
      match this
      case PosInt(u) => u < TWO64
      case NegInt(i) => -TWO63 <= i < 0
      case Float(x) => x < TWO32
      case Double(x) => x < TWO64
      case Str(s) => |s| < TWO32
      case Bin(s) => |s| < TWO32
      case Array(n) => n < TWO32
      case Map(n) => n < TWO32
      case Ext(t, s) => -128 <= t < 128 && |s| < TWO32
      case Time(s, n) => -TWO63 <= s < TWO63 && n < TWO32
      case _ => true
    }

    function Type(): int {
      match this
      case Nil => TYPE_NIL
      case Boolean(_) => TYPE_BOOLEAN
      case PosInt(_) => TYPE_POSITIVE
      case NegInt(_) => TYPE_NEGATIVE
      case Float(_) => TYPE_FLOAT
      case Double(_) => TYPE_DOUBLE
      case Str(_) => TYPE_STR
      case Bin(_) => TYPE_BIN
      case Array(_) => TYPE_ARRAY
      case Map(_) => TYPE_MAP
      case Ext(t, _) => t
      case Time(_, _) => TYPE_TIMESTAMP
    }
  }

  // ---------------------------------------------------------------- reading

  datatype Field = FPositive | FSigned | FFloat | FDouble | FArray | FMap

  /** What follows a first byte, one constructor for each macro of cw_unpack_next's switch. */
  datatype Shape =
    | Illegal
    | Whole(item: Item)                          // getDDItem
    | Number(field: Field, width: nat)           // getDDItem1/2/4/8
    | Blob(text: bool, lead: nat, inline: nat)   // length field, then cw_unpack_assert_blob
    | WideExt(lead: nat)                         // 0xc7, 0xc8, 0xc9
    | FixExt(len: nat)                           // getDDItemFix

  function ShapeOf(c: byte): Shape {
    if c < 0x80 then Whole(PosInt(c))
    else if c < 0x90 then Whole(Map(c - 0x80))
    else if c < 0xa0 then Whole(Array(c - 0x90))
    else if c < 0xc0 then Blob(true, 0, c - 0xa0)
    else if c >= 0xe0 then Whole(NegInt(c - 0x100))
    else match c
      case 0xc0 => Whole(Nil)
      case 0xc2 => Whole(Boolean(false))
      case 0xc3 => Whole(Boolean(true))
      case 0xc4 => Blob(false, 1, 0)
      case 0xc5 => Blob(false, 2, 0)
      case 0xc6 => Blob(false, 4, 0)
      case 0xc7 => WideExt(1)
      case 0xc8 => WideExt(2)
      case 0xc9 => WideExt(4)
      case 0xca => Number(FFloat, 4)
      case 0xcb => Number(FDouble, 8)
      case 0xcc => Number(FPositive, 1)
      case 0xcd => Number(FPositive, 2)
      case 0xce => Number(FPositive, 4)
      case 0xcf => Number(FPositive, 8)
      case 0xd0 => Number(FSigned, 1)
      case 0xd1 => Number(FSigned, 2)
      case 0xd2 => Number(FSigned, 4)
      case 0xd3 => Number(FSigned, 8)
      case 0xd4 => FixExt(1)
      case 0xd5 => FixExt(2)
      case 0xd6 => FixExt(4)
      case 0xd7 => FixExt(8)
      case 0xd8 => FixExt(16)
      case 0xd9 => Blob(true, 1, 0)
      case 0xda => Blob(true, 2, 0)
      case 0xdb => Blob(true, 4, 0)
      case 0xdc => Number(FArray, 2)
      case 0xdd => Number(FArray, 4)
      case 0xde => Number(FMap, 2)
      case 0xdf => Number(FMap, 4)
      case _ => Illegal
  }

  /** Either the item and how many bytes it took, or the return code and how far `current` had moved. */
  datatype Decoded = Ok(item: Item, used: nat) | Fail(code: int, used: nat)

  function NumberItem(f: Field, v: nat, w: nat): Item {
    match f
    case FPositive => PosInt(v)
    case FSigned => if Signed(v, w) >= 0 then PosInt(Signed(v, w)) else NegInt(Signed(v, w))
    case FFloat => Float(v)
    case FDouble => Double(v)
    case FArray => Array(v)
    case FMap => Map(v)
  }

  function BlobItem(text: bool, data: seq<byte>): Item {
    if text then Str(data) else Bin(data)
  }

  function TimeItem(data: seq<byte>): Item
    requires |data| in {4, 8, 12}
  {
    if |data| == 4 then Time(Load(data), 0)
    else if |data| == 8 then Time(Load(data) % 0x4_0000_0000, Load(data) / 0x4_0000_0000)
    else Time(Signed(Load(data[4..]), 8), Load(data[..4]))
  }

  function DecodeNumber(bs: seq<byte>, f: Field, w: nat): Decoded
    requires |bs| >= 1
  {
    if |bs| < 1 + w then Fail(RC_BUFFER_UNDERFLOW, 1)
    else Ok(NumberItem(f, Load(bs[1..1 + w]), w), 1 + w)
  }

  function DecodeBlob(bs: seq<byte>, text: bool, lead: nat, inline: nat): Decoded
    requires |bs| >= 1
  {
    if |bs| < 1 + lead then Fail(RC_BUFFER_UNDERFLOW, 1)
    else
      var len := inline + Load(bs[1..1 + lead]);
      if |bs| < 1 + lead + len then Fail(RC_BUFFER_UNDERFLOW, 1 + lead)
      else Ok(BlobItem(text, bs[1 + lead..1 + lead + len]), 1 + lead + len)
  }

  function DecodeWideExt(bs: seq<byte>, lead: nat): Decoded
    requires |bs| >= 1
  {
    if |bs| < 1 + lead then Fail(RC_BUFFER_UNDERFLOW, 1)
    else if |bs| < 2 + lead then Fail(RC_BUFFER_UNDERFLOW, 1 + lead)
    else
      var len := Load(bs[1..1 + lead]);
      var kind := Signed(bs[1 + lead], 1);
      if lead == 1 && kind == TYPE_TIMESTAMP then
        if len != 12 then Fail(RC_WRONG_TIMESTAMP_LENGTH, 3)
        else if |bs| < 7 then Fail(RC_BUFFER_UNDERFLOW, 3)
        else if |bs| < 15 then Fail(RC_BUFFER_UNDERFLOW, 7)
        else Ok(TimeItem(bs[3..15]), 15)
      else if |bs| < 2 + lead + len then Fail(RC_BUFFER_UNDERFLOW, 2 + lead)
      else Ok(Ext(kind, bs[2 + lead..2 + lead + len]), 2 + lead + len)
  }

  function DecodeFixExt(bs: seq<byte>, len: nat): Decoded
    requires |bs| >= 1
  {
    if |bs| < 2 + len then Fail(RC_BUFFER_UNDERFLOW, 1)
    else
      var kind := Signed(bs[1], 1);
      if kind != TYPE_TIMESTAMP then Ok(Ext(kind, bs[2..2 + len]), 2 + len)
      else if len == 4 || len == 8 then Ok(TimeItem(bs[2..2 + len]), 2 + len)
      else Fail(RC_WRONG_TIMESTAMP_LENGTH, 2 + len)
  }

  /** cw_unpack_next on the unread bytes. */
  function Decode(bs: seq<byte>): Decoded {
    if bs == [] then Fail(RC_END_OF_INPUT, 0)
    else match ShapeOf(bs[0])
      case Illegal => Fail(RC_MALFORMED_INPUT, 1)
      case Whole(item) => Ok(item, 1)
      case Number(f, w) => DecodeNumber(bs, f, w)
      case Blob(text, lead, inline) => DecodeBlob(bs, text, lead, inline)
      case WideExt(lead) => DecodeWideExt(bs, lead)
      case FixExt(len) => DecodeFixExt(bs, len)
  }

  // ---------------------------------------------------------------- writing

  /** The bytes of one pack call, or the return code of a call that is refused. */
  datatype Wired = Sent(bytes: seq<byte>) | Refused(code: int)

  function Tagged(tag: byte, v: nat, n: nat): (s: seq<byte>)
    ensures |s| == 1 + n
  {
    [tag] + Store(v, n)
  }

  function WireUnsigned(u: nat): seq<byte>
    requires u < TWO64
  {
    if u < 128 then [u]
    else if u < 256 then Tagged(0xcc, u, 1)
    else if u < 0x1_0000 then Tagged(0xcd, u, 2)
    else if u < TWO32 then Tagged(0xce, u, 4)
    else Tagged(0xcf, u, 8)
  }

  function WireSigned(i: int): seq<byte>
    requires -TWO63 <= i < TWO63
  {
    if i > 127 then
      if i < 256 then Tagged(0xcc, i, 1)
      else if i < 0x1_0000 then Tagged(0xcd, i, 2)
      else if i < TWO32 then Tagged(0xce, i, 4)
      else Tagged(0xcf, i, 8)
    else if i >= -32 then [i % 256]
    else if i >= -128 then Tagged(0xd0, i % 0x1_0000_0000_0000_0000, 1)
    else if i >= -32768 then Tagged(0xd1, i % 0x1_0000_0000_0000_0000, 2)
    else if i >= -0x8000_0000 then Tagged(0xd2, i % 0x1_0000_0000_0000_0000, 4)
    else Tagged(0xd3, i % 0x1_0000_0000_0000_0000, 8)
  }

  function WireArray(n: nat): seq<byte> {
    if n < 16 then [0x90 + n]
    else if n < 0x1_0000 then Tagged(0xdc, n, 2)
    else Tagged(0xdd, n, 4)
  }

  function WireMap(n: nat): seq<byte> {
    if n < 16 then [0x80 + n]
    else if n < 0x1_0000 then Tagged(0xde, n, 2)
    else Tagged(0xdf, n, 4)
  }

  function StrHead(l: nat, compat: bool): seq<byte> {
    if l < 32 then [0xa0 + l]
    else if l < 256 && !compat then Tagged(0xd9, l, 1)
    else if l < 0x1_0000 then Tagged(0xda, l, 2)
    else Tagged(0xdb, l, 4)
  }

  function BinHead(l: nat): seq<byte> {
    if l < 256 then Tagged(0xc4, l, 1)
    else if l < 0x1_0000 then Tagged(0xc5, l, 2)
    else Tagged(0xc6, l, 4)
  }

  function ExtHead(l: nat): seq<byte> {
    match l
    case 1 => [0xd4]
    case 2 => [0xd5]
    case 4 => [0xd6]
    case 8 => [0xd7]
    case 16 => [0xd8]
    case _ =>
      if l < 256 then Tagged(0xc7, l, 1)
      else if l < 0x1_0000 then Tagged(0xc8, l, 2)
      else Tagged(0xc9, l, 4)
  }

  function WireTime(sec: int, nsec: nat): seq<byte> {
    if sec < 0 || sec >= 0x4_0000_0000 then [0xc7, 12, 0xff] + Store(nsec, 4) + Store(sec % 0x1_0000_0000_0000_0000, 8)
    else
      var data64 := nsec * 0x4_0000_0000 + sec;
      if data64 >= TWO32 then [0xd7, 0xff] + Store(data64, 8)
      else [0xd6, 0xff] + Store(data64, 4)
  }

  /** The pack call for an item; `compat` is the context's be_compatible flag. */
  function Wire(item: Item, compat: bool): Wired
    requires item.Representable()
  {
    match item
    case Nil => Sent([0xc0])
    case Boolean(b) => Sent([if b then 0xc3 else 0xc2])
    case PosInt(u) => Sent(WireUnsigned(u))
    case NegInt(i) => Sent(WireSigned(i))
    case Float(x) => Sent(Tagged(0xca, x, 4))
    case Double(x) => Sent(Tagged(0xcb, x, 8))
    case Str(s) => Sent(StrHead(|s|, compat) + s)
    case Bin(s) => Sent(if compat then StrHead(|s|, compat) + s else BinHead(|s|) + s)
    case Array(n) => Sent(WireArray(n))
    case Map(n) => Sent(WireMap(n))
    case Ext(t, s) => if compat then Refused(RC_ILLEGAL_CALL) else Sent(ExtHead(|s|) + [t % 256] + s)
    case Time(s, n) =>
      if compat then Refused(RC_ILLEGAL_CALL)
      else if n >= 1_000_000_000 then Refused(RC_VALUE_ERROR)
      else Sent(WireTime(s, n))
  }
}
