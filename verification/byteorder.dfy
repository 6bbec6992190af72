/** The two ways cwpack writes and reads a big-endian field on a little-endian machine:
    one shift-and-mask expression on the whole word, or one shift per byte. */
module ByteOrder {
  import opened Bytes

  type u8 = bv8

  // A little-endian machine keeps byte k of a word at address k.

  function Memory16(x: bv16): seq<u8> {
    [(x & 0xff) as u8, (x >> 8) as u8]
  }

  function Memory32(x: bv32): seq<u8> {
    [(x & 0xff) as u8, ((x >> 8) & 0xff) as u8, ((x >> 16) & 0xff) as u8, (x >> 24) as u8]
  }

  function Memory64(x: bv64): seq<u8> {
    [(x & 0xff) as u8, ((x >> 8) & 0xff) as u8, ((x >> 16) & 0xff) as u8, ((x >> 24) & 0xff) as u8,
     ((x >> 32) & 0xff) as u8, ((x >> 40) & 0xff) as u8, ((x >> 48) & 0xff) as u8, (x >> 56) as u8]
  }

  function Word16(s: seq<u8>): bv16
    requires |s| == 2
  {
    (s[0] as bv16) | ((s[1] as bv16) << 8)
  }

  function Word32(s: seq<u8>): bv32
    requires |s| == 4
  {
    (s[0] as bv32) | ((s[1] as bv32) << 8) | ((s[2] as bv32) << 16) | ((s[3] as bv32) << 24)
  }

  function Word64(s: seq<u8>): bv64
    requires |s| == 8
  {
    (s[0] as bv64) | ((s[1] as bv64) << 8) | ((s[2] as bv64) << 16) | ((s[3] as bv64) << 24)
    | ((s[4] as bv64) << 32) | ((s[5] as bv64) << 40) | ((s[6] as bv64) << 48) | ((s[7] as bv64) << 56)
  }

  // The shift-and-mask expressions of the store and load macros.

  function Swap16(d: bv16): bv16 {
    ((d >> 8) & 0xff) | (d << 8)
  }

  function Swap32(x: bv32): bv32 {
    (x >> 24) | ((x & 0x00ff0000) >> 8) | ((x & 0x0000ff00) << 8) | (x << 24)
  }

  function Swap64(x: bv64): bv64 {
    (((x >> 40) | (x << 24)) & 0x0000ff000000ff00)
    | (((x >> 24) | (x << 40)) & 0x00ff000000ff0000)
    | ((x & 0x000000ff00000000) >> 8)
    | ((x & 0x00000000ff000000) << 8)
    | (x >> 56)
    | (x << 56)
  }

  // The byte-at-a-time expressions.

  function Bytewise16(d: bv16): seq<u8> {
    [(d >> 8) as u8, (d & 0xff) as u8]
  }

  function Bytewise32(d: bv32): seq<u8> {
    [(d >> 24) as u8, ((d >> 16) & 0xff) as u8, ((d >> 8) & 0xff) as u8, (d & 0xff) as u8]
  }

  function Bytewise64(z: bv64): seq<u8> {
    [(z >> 56) as u8, ((z >> 48) & 0xff) as u8, ((z >> 40) & 0xff) as u8, ((z >> 32) & 0xff) as u8,
     ((z >> 24) & 0xff) as u8, ((z >> 16) & 0xff) as u8, ((z >> 8) & 0xff) as u8, (z & 0xff) as u8]
  }

  function Gather16(s: seq<u8>): bv16
    requires |s| == 2
  {
    ((s[0] as bv16) << 8) | (s[1] as bv16)
  }

  function Gather32(s: seq<u8>): bv32
    requires |s| == 4
  {
    ((s[0] as bv32) << 24) | ((s[1] as bv32) << 16) | ((s[2] as bv32) << 8) | (s[3] as bv32)
  }

  function Gather64(s: seq<u8>): bv64
    requires |s| == 8
  {
    ((s[0] as bv64) << 56) | ((s[1] as bv64) << 48) | ((s[2] as bv64) << 40) | ((s[3] as bv64) << 32)
    | ((s[4] as bv64) << 24) | ((s[5] as bv64) << 16) | ((s[6] as bv64) << 8) | (s[7] as bv64)
  }

  /** The bytes as numbers. */
  function Numbers(s: seq<u8>): (r: seq<byte>)
    ensures |r| == |s|
    ensures forall i :: 0 <= i < |s| ==> r[i] == s[i] as int
  {
    seq(|s|, i requires 0 <= i < |s| => s[i] as int)
  }

  lemma Join16(a: u8, b: u8)
    ensures (((a as bv16) << 8) | (b as bv16)) as int == (a as int) * 0x100 + b as int
  {
  }

  lemma Join32(a: bv16, b: bv16)
    ensures (((a as bv32) << 16) | (b as bv32)) as int == (a as int) * 0x1_0000 + b as int
  {
  }

  lemma Join64(a: bv32, b: bv32)
    ensures (((a as bv64) << 32) | (b as bv64)) as int == (a as int) * 0x1_0000_0000 + b as int
  {
  }

  lemma BitForms16(x: bv16, s: seq<u8>)
    requires |s| == 2
    ensures Memory16(Swap16(x)) == Bytewise16(x) && Swap16(Word16(s)) == Gather16(s)
    ensures Gather16(Bytewise16(x)) == x
  {
  }

  lemma BitForms32(x: bv32, s: seq<u8>)
    requires |s| == 4
    ensures Memory32(Swap32(x)) == Bytewise32(x) && Swap32(Word32(s)) == Gather32(s)
    ensures Gather32(Bytewise32(x)) == x
  {
  }

  lemma BitForms64(x: bv64, s: seq<u8>)
    requires |s| == 8
    ensures Memory64(Swap64(x)) == Bytewise64(x) && Swap64(Word64(s)) == Gather64(s)
    ensures Gather64(Bytewise64(x)) == x
  {
  }

  lemma Halves32(s: seq<u8>)
    requires |s| == 4
    ensures Gather32(s) == ((Gather16(s[..2]) as bv32) << 16) | (Gather16(s[2..]) as bv32)
  {
  }

  lemma Halves64(s: seq<u8>)
    requires |s| == 8
    ensures Gather64(s) == ((Gather32(s[..4]) as bv64) << 32) | (Gather32(s[4..]) as bv64)
  {
  }

  /** A field read in two parts. */
  lemma {:induction false} LoadConcat(a: seq<byte>, b: seq<byte>)
    ensures Load(a + b) == Load(a) * Pow256(|b|) + Load(b)
  {
    if b == [] {
      assert a + b == a;
    } else {
      var c := b[..|b| - 1];
      LoadConcat(a, c);
      assert (a + b)[..|a + b| - 1] == a + c;
      assert Load(a) * Pow256(|b|) == Load(a) * Pow256(|c|) * 256;
    }
  }

  lemma GatherIsLoad16(s: seq<u8>)
    requires |s| == 2
    ensures Load(Numbers(s)) == Gather16(s) as int
  {
    var n := Numbers(s);
    assert n == [n[0]] + [n[1]];
    LoadConcat([n[0]], [n[1]]);
    Powers();
    assert Load([n[0]]) == n[0] && Load([n[1]]) == n[1];
    Join16(s[0], s[1]);
  }

  lemma GatherIsLoad32(s: seq<u8>)
    requires |s| == 4
    ensures Load(Numbers(s)) == Gather32(s) as int
  {
    assert Numbers(s) == Numbers(s[..2]) + Numbers(s[2..]);
    LoadConcat(Numbers(s[..2]), Numbers(s[2..]));
    Powers();
    GatherIsLoad16(s[..2]);
    GatherIsLoad16(s[2..]);
    Halves32(s);
    Join32(Gather16(s[..2]), Gather16(s[2..]));
  }

  lemma GatherIsLoad64(s: seq<u8>)
    requires |s| == 8
    ensures Load(Numbers(s)) == Gather64(s) as int
  {
    assert Numbers(s) == Numbers(s[..4]) + Numbers(s[4..]);
    LoadConcat(Numbers(s[..4]), Numbers(s[4..]));
    Powers();
    GatherIsLoad32(s[..4]);
    GatherIsLoad32(s[4..]);
    Halves64(s);
    Join64(Gather32(s[..4]), Gather32(s[4..]));
  }

  // Main results: both forms of every macro move exactly the big-endian field of `Bytes`.

  lemma Forms16(x: bv16, s: seq<u8>)
    requires |s| == 2
    ensures Memory16(Swap16(x)) == Bytewise16(x) && Numbers(Bytewise16(x)) == Store(x as int, 2)
    ensures Swap16(Word16(s)) == Gather16(s) && Load(Numbers(s)) == Gather16(s) as int
  {
    BitForms16(x, s);
    GatherIsLoad16(s);
    GatherIsLoad16(Bytewise16(x));
    StoreLoad(Numbers(Bytewise16(x)));
  }

  lemma Forms32(x: bv32, s: seq<u8>)
    requires |s| == 4
    ensures Memory32(Swap32(x)) == Bytewise32(x) && Numbers(Bytewise32(x)) == Store(x as int, 4)
    ensures Swap32(Word32(s)) == Gather32(s) && Load(Numbers(s)) == Gather32(s) as int
  {
    BitForms32(x, s);
    GatherIsLoad32(s);
    GatherIsLoad32(Bytewise32(x));
    StoreLoad(Numbers(Bytewise32(x)));
  }

  lemma Forms64(x: bv64, s: seq<u8>)
    requires |s| == 8
    ensures Memory64(Swap64(x)) == Bytewise64(x) && Numbers(Bytewise64(x)) == Store(x as int, 8)
    ensures Swap64(Word64(s)) == Gather64(s) && Load(Numbers(s)) == Gather64(s) as int
  {
    BitForms64(x, s);
    GatherIsLoad64(s);
    GatherIsLoad64(Bytewise64(x));
    StoreLoad(Numbers(Bytewise64(x)));
  }
}
