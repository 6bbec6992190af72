/** cw_pack_context and the pack calls: bytes are written in place into a bounded buffer, and the first
    error sticks. Each call is proved against `Streams.Pack` and `Items.Wire`. */
module Packer {
  import opened Bytes
  import opened Items
  import opened Streams

  class PackContext {
    const buffer: array<byte>
    const end: nat
    var current: nat
    var beCompatible: bool
    var returnCode: int

    ghost predicate Valid()
      reads this
    {
      current <= end <= buffer.Length
    }

    ghost function State(): Packed
      requires Valid()
      reads this, buffer
    {
      Packed(buffer[..current], end, returnCode)
    }

    constructor (data: array<byte>, length: nat)
      requires length <= data.Length
      ensures Valid() && buffer == data && end == length && !beCompatible
      ensures State() == Packed([], length, RC_OK)
    {
      buffer := data;
      end := length;
      current := 0;
      beCompatible := false;
      returnCode := RC_OK;
    }

    method SetCompatibility(compat: bool)
      requires Valid()
      modifies this`beCompatible
      ensures Valid() && State() == old(State()) && beCompatible == compat
    {
      beCompatible := compat;
    }

    /** cw_pack_reserve_space without an overflow handler. The macro adds the unparenthesised sum to the
        pointer term by term, so on 64-bit addresses no sum wraps, whatever its 32-bit terms. */
    method ReserveSpace(more: nat) returns (p: nat, ok: bool)
      requires Valid() && returnCode == RC_OK
      modifies this`current, this`returnCode
      ensures Valid() && p == old(current)
      ensures ok <==> p + more <= end
      ensures ok ==> current == p + more && returnCode == RC_OK
      ensures !ok ==> current == p && returnCode == RC_BUFFER_OVERFLOW
    {
      p, ok := current, true;
      var nyp := p + more;
      if nyp > end {
        returnCode := RC_BUFFER_OVERFLOW;
        ok := false;
      } else {
        current := nyp;
      }
    }

    method Store16(p: nat, d: nat)
      requires p + 2 <= buffer.Length
      modifies buffer
      ensures buffer[..] == old(buffer[..p]) + Store(d, 2) + old(buffer[p + 2..])
    {
      buffer[p] := d / 0x100 % 256;
      buffer[p + 1] := d % 256;
      FieldBytes16(d);
    }

    method Store32(p: nat, d: nat)
      requires p + 4 <= buffer.Length
      modifies buffer
      ensures buffer[..] == old(buffer[..p]) + Store(d, 4) + old(buffer[p + 4..])
    {
      buffer[p] := d / 0x100_0000 % 256;
      buffer[p + 1] := d / 0x1_0000 % 256;
      buffer[p + 2] := d / 0x100 % 256;
      buffer[p + 3] := d % 256;
      FieldBytes32(d);
    }

    method Store64(p: nat, z: nat)
      requires p + 8 <= buffer.Length
      modifies buffer
      ensures buffer[..] == old(buffer[..p]) + Store(z, 8) + old(buffer[p + 8..])
    {
      hide Store;
      buffer[p] := z / 0x100_0000_0000_0000 % 256;
      buffer[p + 1] := z / 0x1_0000_0000_0000 % 256;
      buffer[p + 2] := z / 0x100_0000_0000 % 256;
      buffer[p + 3] := z / 0x1_0000_0000 % 256;
      buffer[p + 4] := z / 0x100_0000 % 256;
      buffer[p + 5] := z / 0x1_0000 % 256;
      buffer[p + 6] := z / 0x100 % 256;
      buffer[p + 7] := z % 256;
      FieldBytes64(z);
      assert buffer[p..p + 8] == Store(z, 8);
      assert buffer[..] == buffer[..p] + buffer[p..p + 8] + buffer[p + 8..];
    }

    /** memcpy */
    method Copy(p: nat, data: seq<byte>)
      requires p + |data| <= buffer.Length
      modifies buffer
      ensures buffer[..] == old(buffer[..p]) + data + old(buffer[p + |data|..])
    {
      forall i | 0 <= i < |data| {
        buffer[p + i] := data[i];
      }
    }

    method TryMove0(t: byte)
      requires Valid() && returnCode == RC_OK
      modifies this`current, this`returnCode, buffer
      ensures Valid() && State() == Pack(old(State()), Sent([t]))
    {
      if current == end {
        returnCode := RC_BUFFER_OVERFLOW;
      } else {
        buffer[current] := t;
        current := current + 1;
      }
    }

    method TryMove1(t: byte, d: nat)
      requires Valid() && returnCode == RC_OK
      modifies this`current, this`returnCode, buffer
      ensures Valid() && State() == Pack(old(State()), Sent(Tagged(t, d, 1)))
    {
      var p, ok := ReserveSpace(2);
      if ok {
        buffer[p] := t;
        buffer[p + 1] := d % 256;
        assert Store(d, 1) == Store(d / 256, 0) + [d % 256];
      }
    }

    method TryMove2(t: byte, d: nat)
      requires Valid() && returnCode == RC_OK
      modifies this`current, this`returnCode, buffer
      ensures Valid() && State() == Pack(old(State()), Sent(Tagged(t, d, 2)))
    {
      var p, ok := ReserveSpace(3);
      if ok {
        buffer[p] := t;
        Store16(p + 1, d);
      }
    }

    method TryMove4(t: byte, d: nat)
      requires Valid() && returnCode == RC_OK
      modifies this`current, this`returnCode, buffer
      ensures Valid() && State() == Pack(old(State()), Sent(Tagged(t, d, 4)))
    {
      var p, ok := ReserveSpace(5);
      if ok {
        buffer[p] := t;
        Store32(p + 1, d);
      }
    }

    method TryMove8(t: byte, d: nat)
      requires Valid() && returnCode == RC_OK
      modifies this`current, this`returnCode, buffer
      ensures Valid() && State() == Pack(old(State()), Sent(Tagged(t, d, 8)))
    {
      var p, ok := ReserveSpace(9);
      if ok {
        buffer[p] := t;
        Store64(p + 1, d);
      }
    }

    method PackUnsigned(i: u64)
      requires Valid()
      modifies this`current, this`returnCode, buffer
      ensures Valid() && State() == Pack(old(State()), Wire(PosInt(i), beCompatible))
    {
      if returnCode != RC_OK { return; }
      if i < 128 { TryMove0(i); return; }
      if i < 256 { TryMove1(0xcc, i); return; }
      if i < 0x1_0000 { TryMove2(0xcd, i); return; }
      if i < 0x1_0000_0000 { TryMove4(0xce, i); return; }
      TryMove8(0xcf, i);
    }

    method PackSigned(i: i64)
      requires Valid()
      modifies this`current, this`returnCode, buffer
      ensures Valid()
      ensures State() == Pack(old(State()), Wire(if i >= 0 then PosInt(i) else NegInt(i), beCompatible))
    {
      if returnCode != RC_OK { return; }
      if i > 127 {
        if i < 256 { TryMove1(0xcc, i); return; }
        if i < 0x1_0000 { TryMove2(0xcd, i); return; }
        if i < 0x1_0000_0000 { TryMove4(0xce, i); return; }
        TryMove8(0xcf, i);
        return;
      }
      if i >= -32 { TryMove0(i % 256); return; }
      var word := i % 0x1_0000_0000_0000_0000;
      if i >= -128 { TryMove1(0xd0, word); return; }
      if i >= -32768 { TryMove2(0xd1, word); return; }
      if i >= -0x8000_0000 { TryMove4(0xd2, word); return; }
      TryMove8(0xd3, word);
    }

    /** cw_pack_float, on the float's bits. */
    method PackFloat(bits: u32)
      requires Valid()
      modifies this`current, this`returnCode, buffer
      ensures Valid() && State() == Pack(old(State()), Wire(Float(bits), beCompatible))
    {
      if returnCode != RC_OK { return; }
      TryMove4(0xca, bits);
    }

    method PackDouble(bits: u64)
      requires Valid()
      modifies this`current, this`returnCode, buffer
      ensures Valid() && State() == Pack(old(State()), Wire(Double(bits), beCompatible))
    {
      if returnCode != RC_OK { return; }
      TryMove8(0xcb, bits);
    }

    method PackNil()
      requires Valid()
      modifies this`current, this`returnCode, buffer
      ensures Valid() && State() == Pack(old(State()), Wire(Nil, beCompatible))
    {
      if returnCode != RC_OK { return; }
      TryMove0(0xc0);
    }

    method PackBoolean(b: bool)
      requires Valid()
      modifies this`current, this`returnCode, buffer
      ensures Valid() && State() == Pack(old(State()), Wire(Boolean(b), beCompatible))
    {
      if returnCode != RC_OK { return; }
      TryMove0(if b then 0xc3 else 0xc2);
    }

    method PackArraySize(n: u32)
      requires Valid()
      modifies this`current, this`returnCode, buffer
      ensures Valid() && State() == Pack(old(State()), Wire(Array(n), beCompatible))
    {
      if returnCode != RC_OK { return; }
      if n < 16 { TryMove0(0x90 + n); return; }
      if n < 65536 { TryMove2(0xdc, n); return; }
      TryMove4(0xdd, n);
    }

    method PackMapSize(n: u32)
      requires Valid()
      modifies this`current, this`returnCode, buffer
      ensures Valid() && State() == Pack(old(State()), Wire(Map(n), beCompatible))
    {
      if returnCode != RC_OK { return; }
      if n < 16 { TryMove0(0x80 + n); return; }
      if n < 65536 { TryMove2(0xde, n); return; }
      TryMove4(0xdf, n);
    }

    // A head and the bytes that follow it, as cw_pack_str, cw_pack_bin and cw_pack_ext write them:
    // the tail is the blob, or an extension's type byte and blob.

    method PutFixed(t: byte, tail: seq<byte>)
      requires Valid() && returnCode == RC_OK
      modifies this`current, this`returnCode, buffer
      ensures Valid() && State() == Pack(old(State()), Sent([t] + tail))
    {
      var p, ok := ReserveSpace(|tail| + 1);
      if ok {
        buffer[p] := t;
        Copy(p + 1, tail);
        assert buffer[..current] == old(buffer[..current]) + ([t] + tail);
      }
    }

    method Put8(t: byte, l: nat, tail: seq<byte>)
      requires Valid() && returnCode == RC_OK && l < 256
      modifies this`current, this`returnCode, buffer
      ensures Valid() && State() == Pack(old(State()), Sent(Tagged(t, l, 1) + tail))
    {
      hide Store;
      var p, ok := ReserveSpace(|tail| + 2);
      if ok {
        buffer[p] := t;
        buffer[p + 1] := l;
        Copy(p + 2, tail);
        ShortField(l);
        assert buffer[..current] == old(buffer[..current]) + (Tagged(t, l, 1) + tail);
      }
    }

    method Put16(t: byte, l: nat, tail: seq<byte>)
      requires Valid() && returnCode == RC_OK
      modifies this`current, this`returnCode, buffer
      ensures Valid() && State() == Pack(old(State()), Sent(Tagged(t, l, 2) + tail))
    {
      hide Store;
      var p, ok := ReserveSpace(|tail| + 3);
      if ok {
        buffer[p] := t;
        Store16(p + 1, l);
        Copy(p + 3, tail);
        assert buffer[..current] == old(buffer[..current]) + (Tagged(t, l, 2) + tail);
      }
    }

    method Put32(t: byte, l: nat, tail: seq<byte>)
      requires Valid() && returnCode == RC_OK
      modifies this`current, this`returnCode, buffer
      ensures Valid() && State() == Pack(old(State()), Sent(Tagged(t, l, 4) + tail))
    {
      hide Store;
      var p, ok := ReserveSpace(|tail| + 5);
      if ok {
        buffer[p] := t;
        Store32(p + 1, l);
        ghost var headed := buffer[..];
        assert headed[..p + 5] == old(buffer[..])[..p] + Tagged(t, l, 4);
        Copy(p + 5, tail);
        assert buffer[..current] == headed[..p + 5] + tail;
        assert buffer[..current] == old(buffer[..current]) + (Tagged(t, l, 4) + tail);
      }
    }

    method PackStr(v: seq<byte>)
      requires Valid() && |v| < TWO32
      modifies this`current, this`returnCode, buffer
      ensures Valid() && State() == Pack(old(State()), Wire(Str(v), beCompatible))
    {
      hide Store, Pack;
      if returnCode != RC_OK { AfterError(State(), Wire(Str(v), beCompatible)); return; }
      var l := |v|;
      if l < 32 { PutFixed(0xa0 + l, v); return; }
      if l < 256 && !beCompatible { Put8(0xd9, l, v); return; }
      if l < 65536 { Put16(0xda, l, v); return; }
      Put32(0xdb, l, v);
    }

    method PackBin(v: seq<byte>)
      requires Valid() && |v| < TWO32
      modifies this`current, this`returnCode, buffer
      ensures Valid() && State() == Pack(old(State()), Wire(Bin(v), beCompatible))
    {
      hide Store, Pack;
      if returnCode != RC_OK { AfterError(State(), Wire(Bin(v), beCompatible)); return; }
      if beCompatible { PackStr(v); return; }
      var l := |v|;
      if l < 256 { Put8(0xc4, l, v); return; }
      if l < 65536 { Put16(0xc5, l, v); return; }
      Put32(0xc6, l, v);
    }

    method PackExt(kind: int, v: seq<byte>)
      requires Valid() && -128 <= kind < 128 && |v| < TWO32
      modifies this`current, this`returnCode, buffer
      ensures Valid() && State() == Pack(old(State()), Wire(Ext(kind, v), beCompatible))
    {
      hide Store;
      if returnCode != RC_OK { return; }
      if beCompatible {
        returnCode := RC_ILLEGAL_CALL;
        return;
      }
      var l, tail := |v|, [kind % 256] + v;
      assert forall head: seq<byte> :: head + [kind % 256] + v == head + tail;
      hide Pack;
      match l {
        case 1 => PutFixed(0xd4, tail);
        case 2 => PutFixed(0xd5, tail);
        case 4 => PutFixed(0xd6, tail);
        case 8 => PutFixed(0xd7, tail);
        case 16 => PutFixed(0xd8, tail);
        case _ =>
          if l < 256 {
            Put8(0xc7, l, tail);
          } else if l < 65536 {
            Put16(0xc8, l, tail);
          } else {
            Put32(0xc9, l, tail);
          }
      }
    }

    method PutTime96(sec: i64, nsec: u32)
      requires Valid() && returnCode == RC_OK
      modifies this`current, this`returnCode, buffer
      ensures Valid()
      ensures State() == Pack(old(State()),
                              Sent([0xc7, 12, 0xff] + Store(nsec, 4) + Store(sec % 0x1_0000_0000_0000_0000, 8)))
    {
      hide Store;
      var p, ok := ReserveSpace(15);
      if ok {
        buffer[p] := 0xc7;
        buffer[p + 1] := 12;
        buffer[p + 2] := 0xff;
        Store32(p + 3, nsec);
        Store64(p + 7, sec % 0x1_0000_0000_0000_0000);
        assert buffer[..current]
            == old(buffer[..current]) + ([0xc7, 12, 0xff] + Store(nsec, 4) + Store(sec % 0x1_0000_0000_0000_0000, 8));
      }
    }

    method PutTime64(data64: u64)
      requires Valid() && returnCode == RC_OK
      modifies this`current, this`returnCode, buffer
      ensures Valid() && State() == Pack(old(State()), Sent([0xd7, 0xff] + Store(data64, 8)))
    {
      hide Store;
      var p, ok := ReserveSpace(10);
      if ok {
        buffer[p] := 0xd7;
        buffer[p + 1] := 0xff;
        Store64(p + 2, data64);
      }
    }

    method PutTime32(data32: u32)
      requires Valid() && returnCode == RC_OK
      modifies this`current, this`returnCode, buffer
      ensures Valid() && State() == Pack(old(State()), Sent([0xd6, 0xff] + Store(data32, 4)))
    {
      hide Store;
      var p, ok := ReserveSpace(6);
      if ok {
        buffer[p] := 0xd6;
        buffer[p + 1] := 0xff;
        Store32(p + 2, data32);
      }
    }

    method PackTime(sec: i64, nsec: u32)
      requires Valid()
      modifies this`current, this`returnCode, buffer
      ensures Valid() && State() == Pack(old(State()), Wire(Time(sec, nsec), beCompatible))
    {
      hide Store;
      if returnCode != RC_OK { return; }
      if beCompatible {
        returnCode := RC_ILLEGAL_CALL;
        return;
      }
      if nsec >= 1_000_000_000 {
        returnCode := RC_VALUE_ERROR;
        return;
      }
      if sec < 0 || sec >= 0x4_0000_0000 {
        PutTime96(sec, nsec);
      } else {
        var data64 := nsec * 0x4_0000_0000 + sec;
        if data64 >= 0x1_0000_0000 {
          PutTime64(data64);
        } else {
          PutTime32(data64);
        }
      }
    }
  }

  lemma AfterError(p: Packed, w: Wired)
    requires p.code != RC_OK
    ensures Pack(p, w) == p
  {
  }

  lemma ShortField(l: byte)
    ensures Store(l, 1) == [l]
  {
    assert Store(l, 1) == Store(l / 256, 0) + [l % 256];
  }

  lemma FieldBytes16(d: nat)
    ensures Store(d, 2) == [d / 0x100 % 256, d % 256]
  {
    Powers();
    StoreByte(d, 2, 0);
    StoreByte(d, 2, 1);
  }

  lemma FieldBytes32(d: nat)
    ensures Store(d, 4) == [d / 0x100_0000 % 256, d / 0x1_0000 % 256, d / 0x100 % 256, d % 256]
  {
    hide Store;
    Powers();
    assert Pow256(3) == 0x100_0000;
    StoreByte(d, 4, 0);
    StoreByte(d, 4, 1);
    StoreByte(d, 4, 2);
    StoreByte(d, 4, 3);
  }

  lemma FieldBytes64(z: nat)
    ensures Store(z, 8) == [z / 0x100_0000_0000_0000 % 256, z / 0x1_0000_0000_0000 % 256,
                            z / 0x100_0000_0000 % 256, z / 0x1_0000_0000 % 256,
                            z / 0x100_0000 % 256, z / 0x1_0000 % 256, z / 0x100 % 256, z % 256]
  {
    hide Store;
    Powers();
    assert Pow256(3) == 0x100_0000 && Pow256(5) == 0x100_0000_0000;
    assert Pow256(6) == 0x1_0000_0000_0000 && Pow256(7) == 0x100_0000_0000_0000;
    StoreByte(z, 8, 0);
    StoreByte(z, 8, 1);
    StoreByte(z, 8, 2);
    StoreByte(z, 8, 3);
    StoreByte(z, 8, 4);
    StoreByte(z, 8, 5);
    StoreByte(z, 8, 6);
    StoreByte(z, 8, 7);
  }
}
