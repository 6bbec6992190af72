/** Machine integers as bounded mathematical integers, and the big-endian fields of
    the MessagePack formats. */
module Bytes {

  type byte = x: int | 0 <= x < 0x100
  type u32 = x: int | 0 <= x < 0x1_0000_0000
  type u64 = x: int | 0 <= x < 0x1_0000_0000_0000_0000
  type i64 = x: int | -0x8000_0000_0000_0000 <= x < 0x8000_0000_0000_0000

  const TWO32: int := 0x1_0000_0000
  const TWO63: int := 0x8000_0000_0000_0000
  const TWO64: int := 0x1_0000_0000_0000_0000

  function Pow256(n: nat): (p: nat)
    ensures p >= 1
  {
    if n == 0 then 1 else 256 * Pow256(n - 1)
  }

  /** The low `n` bytes of `v`, most significant first (what cw_store16/32/64 leave in memory). */
  function Store(v: nat, n: nat): (s: seq<byte>)
    ensures |s| == n
  {
    if n == 0 then [] else Store(v / 256, n - 1) + [v % 256]
  }

  /** The number a big-endian field denotes (what cw_load16/32/64 compute). */
  function Load(s: seq<byte>): nat {
    if s == [] then 0 else Load(s[..|s| - 1]) * 256 + s[|s| - 1]
  }

  /** Two's complement reading of an `n`-byte field. */
  function Signed(v: nat, n: nat): int {
    if 2 * v < Pow256(n) then v else v - Pow256(n)
  }

  lemma Powers()
    ensures Pow256(0) == 1 && Pow256(1) == 0x100 && Pow256(2) == 0x1_0000
    ensures Pow256(4) == 0x1_0000_0000 && Pow256(8) == 0x1_0000_0000_0000_0000
  {
  }

  lemma {:induction false} LoadStore(v: nat, n: nat)
    requires v < Pow256(n)
    ensures Load(Store(v, n)) == v
  {
    if n > 0 {
      LoadStore(v / 256, n - 1);
      assert Store(v, n)[..n - 1] == Store(v / 256, n - 1);
    }
  }

  lemma {:induction false} StoreLoad(s: seq<byte>)
    ensures Load(s) < Pow256(|s|)
    ensures Store(Load(s), |s|) == s
  {
    if s != [] {
      StoreLoad(s[..|s| - 1]);
      assert s == s[..|s| - 1] + [s[|s| - 1]];
    }
  }

  lemma DivideTwice(v: nat, p: nat)
    requires p >= 1
    ensures v / 256 / p == v / (256 * p)
  {
    var q := v / (256 * p);
    var r := v % (256 * p);
    assert v == 256 * (p * q) + r;
    assert v / 256 == p * q + r / 256;
    assert r / 256 < p;
    var d := v / 256;
    var e := d / p;
    assert d == p * e + d % p;
    QuotientUnique(p, e, d % p, q, r / 256);
  }

  lemma QuotientUnique(p: nat, q: nat, r: nat, q': nat, r': nat)
    requires r < p && r' < p && p * q + r == p * q' + r'
    ensures q == q'
  {
    AtLeastFactor(p, if q < q' then q' - q else q - q');
    assert p * (q - q') == r' - r && p * (q' - q) == r - r';
  }

  lemma AtLeastFactor(p: nat, d: nat)
    ensures d >= 1 ==> p * d >= p
  {
  }

  /** Byte `k` of a field, as the order-insensitive store macros compute it by shifting right. */
  lemma {:induction false} StoreByte(v: nat, n: nat, k: nat)
    requires k < n
    ensures Store(v, n)[k] == v / Pow256(n - 1 - k) % 256
  {
    if k < n - 1 {
      StoreByte(v / 256, n - 1, k);
      DivideTwice(v, Pow256(n - 2 - k));
    }
  }
}
